# AR-Tourism core, modelled in Dafny

AR-Tourism is a Next.js app for visitors walking around a town. The visitor page reads the
phone's position and compass. It ranks the points of interest (POIs) by distance and shows the
nearest ones within 80 m as cards. It also turns an arrow towards the pinned or nearest POI.
An admin area, behind a signed session cookie, lets an administrator create, edit and delete
POIs. Their descriptions are written in a small markdown dialect and rendered to HTML.

This project models the logic at the centre of that app:

- `Proximity` is the ranking and targeting engine of the visitor page. It covers `nearby`,
  `nearest`, `inRange`, `effectiveTarget`, `bearingToTarget` and `relativeAngle`. Distance and
  course are formula parameters; the guards around them are written out.
- `Orientation` is the compass: `enableCompass` and its orientation handler. It is a class whose
  fields are the page's refs and its `heading` and `headingErr` state.
- `CardText` holds the card text helpers `clampText` and `stripMarkdown`.
- `Markdown` is `escapeHtml` and `renderMarkdownToHtml`. `Regex` models, as left-to-right
  scanners, the regular expressions that these and `stripMarkdown` use.
  `RenderExamples` states what the renderer produces for a small document.
- `Auth` is the session token format: `createSessionToken`, `verifySessionToken` and
  `getAdminSession`. The HMAC, the clock and `Number(...)` are parameters.
- `Middleware` is the request guard together with its path matcher.
- `PoisRoute` is the authorisation, validation and record normalisation of `POST /api/pois`.
- `PoiForm` is the admin form: the payload it sends, `setField`, and the state that
  `handleSubmit` and `handleDelete` change. It is a class.
- `AdminNav` holds the navigation's active-item rule and the logout destination.
- `Geo` is `clampLatLng`.

The module `Js` models the JavaScript values these modules need: numbers with NaN and the
infinities, truthiness, property access, and `String(...)` and `Number(...)` conversion.
The module `Text` models `trim`, `startsWith`, `split` and `join`.

## Model

| member | source | states |
|---|---|---|
| Proximity.HaversineMeters | lib/haversine.ts:18-20 | two equal coordinates are at distance 0; any other pair is measured by the formula |
| Proximity.BearingDegrees | app/app/page.tsx:31-46 | the course, brought into [0, 360) by `(θ + 360) % 360`; an in-range course is kept as it is |
| Proximity.Measure | app/app/page.tsx:211-212 | one entry per POI, in fetch order, each paired with its distance from the fix |
| Proximity.Insert | app/app/page.tsx:213 | inserting into the ranking adds exactly that entry (as a multiset) |
| Proximity.SortByDistance | app/app/page.tsx:213 | the sort is a permutation of its input |
| Proximity.InsertSorted | app/app/page.tsx:213 | inserting into a sorted ranking keeps it sorted |
| Proximity.InsertKeepsTies | app/app/page.tsx:213 | insertion keeps the relative order of entries at the same distance (stability) |
| Proximity.AtDistanceAppend | app/app/page.tsx:213 | the entries at one distance in a concatenation are those of each part, in order |
| Proximity.SortByDistanceCorrect | app/app/page.tsx:213 | the sort is ascending by distance, and stable: each distance keeps its entries in input order |
| Proximity.AtDistanceMember | app/app/page.tsx:213 | an entry is among those at distance v iff it is in the list with distance v |
| Proximity.StableSortUnique | app/app/page.tsx:213 | two sorted rankings that agree on every distance's entries are equal, so the stable sort's result is determined |
| Proximity.Nearby | app/app/page.tsx:209-214 | no fix gives an empty ranking; otherwise the ranking has the measured entries (same multiset) |
| Proximity.NearbyRanked | app/app/page.tsx:209-214 | with a fix, the ranking is sorted, stable and lists each POI exactly once |
| Proximity.Within | app/app/page.tsx:217 | the filter keeps only entries of the ranking within 80 m |
| Proximity.InRange | app/app/page.tsx:217 | at most 3 entries, each within 80 m and taken from the ranking |
| Proximity.WithinSortedIsPrefix | app/app/page.tsx:217 | on a sorted ranking the filter returns a prefix, and everything after it is farther than 80 m |
| Proximity.WithinNone | app/app/page.tsx:217 | when every entry is farther than 80 m, the filter is empty |
| Proximity.InRangeIsPrefix | app/app/page.tsx:217 | on the ranking, `inRange` is a prefix; when it holds fewer than 3 entries, no omitted entry is in range |
| Proximity.Nearest | app/app/page.tsx:216 | the first entry when it is within 80 m, none otherwise (including an empty ranking) |
| Proximity.NearestIsFirstInRange | app/app/page.tsx:216-217 | on the ranking, `nearest` is the first entry of `inRange` |
| Proximity.EffectiveTarget | app/app/page.tsx:219 | the pinned POI when there is one, else the first in-range POI, else none |
| Proximity.BearingToTarget | app/app/page.tsx:221-224 | none exactly when there is no fix or no target; otherwise the bearing from the fix to the target |
| Proximity.RelativeAngle | app/app/page.tsx:226-229 | none when heading or bearing is missing; for inputs in [0, 360) the angle is in [0, 360) and equals bearing − heading, plus 360 when that is negative |
| Proximity.PinnedTargetWins | app/app/page.tsx:219-224 | a pinned POI is the target even when it is out of range, and with a fix it gets a bearing |
| Proximity.NoFixNoArrow | app/app/page.tsx:209-229 | without a fix the ranking, in-range list, bearing and arrow angle are all empty |
| Proximity.StandingOnPoi | app/app/page.tsx:209-224 | standing on a POI's coordinates ranks it at 0 m, in range, as the target |
| Proximity.RadiusBoundary | app/app/page.tsx:217 | 80 m is in range and 81 m is not |
| Proximity.Derive | app/app/page.tsx:209-229 | the derived state: no fix gives empty lists; with one the ranking is sorted, one entry per POI, with the measured entries in stable order; `inRange` is a prefix of at most 3 entries within 80 m, and with fewer than 3 no later entry is within 80 m; the pinned POI wins, else the nearest; the bearing to that target iff fix and target; the arrow angle from the heading iff also a heading |
| Proximity.FacingTarget | app/app/page.tsx:226-229 | facing the bearing exactly gives an arrow angle of 0 |
| Orientation.EnableError | app/app/page.tsx:172-195 | no error exactly when permission is granted or not asked; a refusal and a thrown request give their messages |
| Orientation.NextHeading | app/app/page.tsx:180-187 | `webkitCompassHeading` wins; otherwise `(360 − alpha) % 360`; an event with neither keeps the heading |
| Orientation.Compass.constructor | app/app/page.tsx:84-97 | the compass starts disabled, with no heading and no error |
| Orientation.Compass.EnableCompass | app/app/page.tsx:169-196 | a second call changes nothing; a first call enables iff permission is granted, registers both listeners then, and records the error otherwise |
| Orientation.Compass.Dispatch | app/app/page.tsx:180-192 | a registered event updates the heading as the handler does; any other leaves it |
| Orientation.EnableTwice | app/app/page.tsx:170-192 | enabling twice registers the two listeners once; a refused permission registers none |
| CardText.SliceTo | app/app/page.tsx:62 | `slice(0, end)` with a negative end counting from the end |
| CardText.ClampText | app/app/page.tsx:59-63 | a trimmed text that fits is returned as it is; a longer one ends in "…" |
| CardText.ClampCut | app/app/page.tsx:59-63 | a cut text fits in max, is the first max − 1 characters right-trimmed plus "…", and does not end in white space before the ellipsis |
| CardText.ClampNonPositive | app/app/page.tsx:59-63 | with max ≤ 0 a non-blank text is still longer than max |
| CardText.ClampIdempotent | app/app/page.tsx:59-63 | clamping a clamped text changes nothing |
| CardText.StripMarkdown | app/app/page.tsx:48-57 | the result has no marker characters, only single spaces between words, and no white space at either end |
| CardText.BlankMarksNoMarks | app/app/page.tsx:54 | blanking replaces every marker and keeps the length |
| CardText.SquashShape | app/app/page.tsx:55 | squashing leaves single spaces and keeps the text free of markers |
| CardText.TrimShape | app/app/page.tsx:56 | trimming keeps those properties |
| CardText.SquashSingle | app/app/page.tsx:55 | single-spaced text is not changed by squashing |
| CardText.DropMarkupPlain | app/app/page.tsx:50-53 | the image, link, fence and code rules leave plain words alone |
| CardText.StripPlain | app/app/page.tsx:48-57 | plain single-spaced words come through unchanged |
| Markdown.EscapeChar | lib/markdown.ts:2-11 | the five special characters become entities; every other character is copied |
| Markdown.EscapeHtml | lib/markdown.ts:2-11 | the output has no `<`, `>`, `"` or `'`; an input without the five characters is returned unchanged |
| Markdown.EscapeNoBreaks | lib/markdown.ts:2-11 | escaping adds no line terminator |
| Markdown.EscapeAppend | lib/markdown.ts:2-11 | escaping works character by character: it distributes over concatenation |
| Markdown.UnescapeEscape | lib/markdown.ts:2-11 | escaping loses nothing: decoding the five entities gives the input back |
| Markdown.NormalizeNewlinesDropsCr | lib/markdown.ts:20 | the CRLF rule deletes exactly the CR before each LF |
| Markdown.ApplyLine | lib/markdown.ts:25-37 | a line that already starts with a tag is left alone by every line rule |
| Markdown.MapLinesJoin | lib/markdown.ts:25-37 | a `^…$` rule rewrites each line on its own and keeps the line breaks |
| Markdown.LineRulesInOrder | lib/markdown.ts:25-37 | the five rules in order are the one-line rule: `### `, `## `, `# `, `&gt; ` or `> `, `- `, by the first prefix that matches |
| Markdown.LineStageByLine | lib/markdown.ts:25-37 | the line stage renders each line of the text by that rule |
| Markdown.EachInOrder | lib/markdown.ts:25-37 | applying the rules list-wise in order equals rendering each line |
| Markdown.RunLength | lib/markdown.ts:40 | the number of leading `<li>` lines, up to the first other line |
| Markdown.GroupRuns | lib/markdown.ts:40 | grouping never adds lines, and keeps at least one |
| Markdown.WrapRuns | lib/markdown.ts:40 | the list expression without the trailing newline wraps each maximal run of `<li>` lines in one `<ul>` and keeps every other line and newline |
| Markdown.InlineUntouched | lib/markdown.ts:45-57 | text with no `*`, backtick or `[` passes the inline rules unchanged |
| Markdown.RenderBlock | lib/markdown.ts:62-75 | a blank block is dropped; a header, list or quote block is emitted trimmed; any other block becomes a `<p>` with `<br/>` for each inner newline |
| Markdown.BreakLinesSplit | lib/markdown.ts:72 | replacing each newline by `<br/>` is split-then-join |
| Markdown.RenderBlocksShape | lib/markdown.ts:60-76 | the rendered blocks contain no blank line |
| Markdown.ParagraphsNoBlankLine | lib/markdown.ts:60-76 | the paragraph pass leaves no blank line in the output |
| Markdown.RenderMarkdownToHtml | lib/markdown.ts:13-76 | empty markdown renders to ""; the output contains no blank line |
| Markdown.RenderMarkdownFixed | lib/markdown.ts:13-76 | the same pipeline with the corrected list expression: empty to "", no blank line |
| Markdown.RenderByLines | lib/markdown.ts:13-76 | for text whose escaped lines hold no other line terminator and render to item and plain lines, the output is the rendered lines with each run of items wrapped as written (the newline after the run inside the `<ul>`), or grouped into one `<ul>` line when corrected, then the inline and paragraph passes |
| Markdown.LiRunJoin | lib/markdown.ts:40 | `(<li.*<\/li>\n?)+` over a run of item lines matches the whole run, plus the newline after it when another line follows |
| Markdown.WrapRunEnd | lib/markdown.ts:40 | as written, a run of items at the end of the text becomes one `<ul>` |
| Markdown.WrapRunNewline | lib/markdown.ts:40 | as written, a run of items followed by another line becomes one `<ul>` holding the newline before `</ul>`, and replacing continues after it |
| Markdown.WrapRunsAsWritten | lib/markdown.ts:40 | as written, each maximal run of `<li>` lines is wrapped in one `<ul>` that also takes the newline after it; every other line and newline is kept |
| RenderExamples.ListSwallowsParagraph | lib/markdown.ts:40-76 | as written, "- a", a blank line, "b" renders as one list block with "b" inside it and no `<p>` |
| RenderExamples.FixedKeepsParagraph | lib/markdown.ts:40-76 | with the corrected list expression the same document renders as the list followed by a `<p>` holding "b" |
| RenderExamples.PlainParagraph | lib/markdown.ts:62-75 | a one-line block with no white space at its ends and no block tag in front becomes a `<p>` around it |
| Regex.FindListBlock | lib/markdown.ts:40 | the corrected list expression matches iff the text starts with an item; the match starts with `<li`, ends in `</li>` and is maximal: no item follows it after one newline |
| Regex.LiMoreEnd | lib/markdown.ts:40 | the further items taken end in `</li>`, and no item follows the last of them after one newline |
| Regex.ReplaceWithoutTrigger | lib/markdown.ts:45-57 | a global replace leaves text in which no match can start unchanged |
| Regex.ReplaceSkip | lib/markdown.ts:40 | text in which no match starts is copied and replacing continues after it |
| Text.Trim | app/app/page.tsx:60 | no white space at either end; empty iff the input is all white space; the result is the input without its leading white space, cut where only white space remains |
| Text.Split | lib/auth.ts:29 | at least one part, and no part contains the separator |
| Text.JoinSplit | lib/auth.ts:29 | joining the split parts gives the text back |
| Text.SplitJoin | lib/auth.ts:29 | splitting parts that hold no separator gives the parts back |
| Auth.Decimal | lib/auth.ts:23 | the decimal form of a timestamp is one or more digits, with a leading zero only for 0 |
| Auth.DecimalValue | lib/auth.ts:23 | the digits read back as the timestamp, so the decimal form is exact |
| Auth.CreateSessionToken | lib/auth.ts:21-26 | for a dot-free user and signature the token splits into the user, the decimal timestamp and the signature of `user.timestamp` |
| Auth.TokenParts | lib/auth.ts:25-29 | three dot-free parts joined with dots split back into the same three parts |
| Auth.DecimalHasNoDot | lib/auth.ts:23 | a timestamp's decimal form holds no "." |
| Auth.AsciiLengths | lib/auth.ts:37-39 | the UTF-8 length equals the JavaScript length exactly when the text is ASCII |
| Auth.Utf8AtLeastJs | lib/auth.ts:37-39 | the UTF-8 length is never below the JavaScript length |
| Auth.VerifySessionToken | lib/auth.ts:28-51 | anything other than three dot-separated parts is rejected; an accepted token has a matching signature, a finite timestamp and an age of at most 7 days; it throws exactly when there are three parts and the expected signature has the JavaScript length but not the UTF-8 length of the given one |
| Auth.VerifySessionTokenChecked | lib/auth.ts:28-51 | the session is returned exactly when the token verifies, and it is the verified session |
| Auth.GetAdminSession | lib/auth.ts:53-57 | a missing or empty cookie gives no session; otherwise the session is exactly the one the token verifies to, and a token on which the verifier as written throws gives none |
| Auth.SplitCount | lib/auth.ts:29-30 | splitting on one character gives one more part than the character occurs |
| Auth.ThreePartsRequired | lib/auth.ts:29-30 | an accepted token has exactly two dots |
| Auth.NonAsciiSignatureThrows | lib/auth.ts:37-39 | as written, a signature "aé" checked against an expected "ab" passes the length test and makes the comparison throw |
| Auth.DottedUserNeverVerifies | lib/auth.ts:21-30 | the token of a user name containing "." never verifies |
| Auth.WrongSignatureRejected | lib/auth.ts:32-41 | a token whose signature differs from the expected one is not accepted |
| Auth.ExpiryBoundary | lib/auth.ts:47-48 | a valid token is accepted iff it is at most 7 days old, so exactly 7 days passes |
| Auth.CreateThenVerify | lib/auth.ts:21-51 | a token made for a dot-free user at time t verifies to that user and t at any now up to 7 days later |
| Middleware.Guard | middleware.ts:6-31 | a redirect to the login page iff admin area, not the login page, no session; a 401 iff the POI API without a session outside the admin area; a session always passes |
| Middleware.Route | middleware.ts:33-35 | paths outside the matcher pass untouched; matched paths get the guard's decision |
| Middleware.LoginNeverRedirected | middleware.ts:10-16 | the login page passes with or without a session |
| Middleware.AnyCookiePasses | middleware.ts:13 | any non-empty cookie value passes; its signature is not checked |
| Middleware.PoisListNeedsSession | middleware.ts:11-28 | the POI list without a session is answered with 401 |
| Middleware.AdministratorPrefix | middleware.ts:9-35 | the guard treats "/administrator" as admin area, but the matcher never hands it that path |
| Geo.ClampLatLng | lib/geo.ts:1-4 | the latitude error iff the latitude is out of range; the longitude error iff only the longitude is; nothing else is thrown |
| Geo.FiniteInRange | lib/geo.ts:1-4 | a finite pair passes iff −90 ≤ lat ≤ 90 and −180 ≤ lng ≤ 180 |
| Geo.BoundsInclusive | lib/geo.ts:2-3 | ±90 and ±180 pass |
| Geo.LatitudeFirst | lib/geo.ts:2-3 | when both are out of range, the latitude error is raised |
| Geo.NotANumberPasses | lib/geo.ts:2-3 | NaN passes both tests; infinities are out of range |
| AdminNav.ActiveFlags | components/AdminNav.tsx:39-42 | one flag per item, set iff the path equals the href or, for items other than the dashboard, starts with it |
| AdminNav.DashboardExact | components/AdminNav.tsx:42 | the dashboard item is active only on "/admin" itself |
| AdminNav.PrefixActive | components/AdminNav.tsx:42 | any other item is active on every path below its href |
| AdminNav.NewPageTwoActive | components/AdminNav.tsx:12-42 | on "/admin/pois/new", "POIs" and "Novo POI" are both active |
| AdminNav.LogoutDestination | components/AdminNav.tsx:25-35 | logout always lands on the login page, whether the request failed or not |
| PoisRoute.Status | app/api/pois/route.ts:20-52 | 401 for unauthorised, 400 for a bad request, 201 for a created POI |
| PoisRoute.Body | app/api/pois/route.ts:26 | a body that does not parse is read as `{}` |
| PoisRoute.NameOf | app/api/pois/route.ts:28 | a falsy name gives ""; a string name is trimmed |
| PoisRoute.OptionalText | app/api/pois/route.ts:42-46 | an optional field is stored iff truthy, as its string form |
| PoisRoute.Post | app/api/pois/route.ts:17-53 | unauthorised iff there is no session; a bad request iff there is one and the trimmed name is empty or lat or lng is not finite; created otherwise |
| PoisRoute.Record | app/api/pois/route.ts:39-50 | the stored record has the given name and coordinates, and each optional field as its string form when truthy and null otherwise |
| PoisRoute.NoSessionIgnoresBody | app/api/pois/route.ts:18-24 | without a session the answer is 401 whatever the body |
| PoisRoute.UnparsedBodyRejected | app/api/pois/route.ts:26-37 | a body that does not parse gives 400 |
| PoisRoute.BlankNameRejected | app/api/pois/route.ts:28-36 | a blank name gives 400 |
| PoisRoute.CreatedRecord | app/api/pois/route.ts:39-52 | a created POI has the trimmed name, the numeric coordinates, and each optional field as its string when truthy and null otherwise |
| PoisRoute.NoRangeCheck | app/api/pois/route.ts:29-32 | any finite coordinates are stored, in range or not |
| PoisRoute.FarLatitudeStored | app/api/pois/route.ts:29-32 | a latitude of 1000 is stored as it is |
| PoiForm.With | components/PoiForm.tsx:55 | the updated record has the new value at the key and every other key unchanged |
| PoiForm.WithLaws | components/PoiForm.tsx:55 | writing back a field's own value changes nothing; the second of two writes to one key wins |
| PoiForm.TextOrNull | components/PoiForm.tsx:44-48 | null exactly for a falsy value; a non-empty string is kept |
| PoiForm.Coordinate | components/PoiForm.tsx:37-40 | a string coordinate goes through `Number`; anything else is passed through |
| PoiForm.PayloadName | components/PoiForm.tsx:43 | the payload name is "" for a missing name and the trimmed name for a string |
| PoiForm.PayloadOptional | components/PoiForm.tsx:44-48 | each optional field is null when empty or missing and kept when it is a non-empty string |
| PoiForm.PayloadCoordinates | components/PoiForm.tsx:37-50 | string coordinates are converted; numeric ones are passed through |
| PoiForm.PayloadLocal | components/PoiForm.tsx:36-56 | changing one field of the values changes only the payload fields that depend on it |
| PoiForm.SubmitRequest | components/PoiForm.tsx:64-65 | create posts to "/api/pois"; edit puts to "/api/pois/" followed by the id |
| PoiForm.EditWithoutId | components/PoiForm.tsx:64 | an edit form without an id puts to "/api/pois/undefined" |
| PoiForm.ReplyError | components/PoiForm.tsx:75-83 | success leaves no error; a thrown request gives the unexpected-error message; an answer that is not ok gives an error: the server's error as sent when it is truthy, the fallback message otherwise |
| PoiForm.FailureShown | components/PoiForm.tsx:75-104 | a failed save or delete always leaves an error to show |
| PoiForm.Form.constructor | components/PoiForm.tsx:29-32 | the form starts with the initial values, not loading, not deleting, without an error |
| PoiForm.Form.SetField | components/PoiForm.tsx:54-56 | only the given key of the values changes; the rest of the form state is unchanged |
| PoiForm.Form.StartSubmit | components/PoiForm.tsx:60-65 | clears the error, sets loading and returns the request that mode and id call for |
| PoiForm.Form.FinishSubmit | components/PoiForm.tsx:75-86 | loading is cleared; success navigates to the POI list; otherwise the reply's error is shown |
| PoiForm.Form.StartDelete | components/PoiForm.tsx:89-98 | without an id or without confirmation nothing changes and nothing is sent; otherwise a DELETE of the POI is sent with the error cleared and deleting set |
| PoiForm.Form.FinishDelete | components/PoiForm.tsx:99-112 | deleting is cleared; success navigates to the POI list; otherwise the reply's error is shown |
| PoiForm.Save | components/PoiForm.tsx:58-87 | a whole submit sends the request for the values, ends not loading, and navigates iff there is no error |

## Left out

- Proximity.HaversineMeters: coordinates are finite reals, so the non-finite guard of lib/haversine.ts:8-16 has no counterpart. The haversine and course formulas (floating-point trigonometry) are parameters.
- Proximity.BearingDegrees: the course parameter is unconstrained, so for a course below −360 the result is not promised to lie in [0, 360) (`%` keeps the sign). The atan2 course of the source lies in (−180, 180].
- Proximity.SortByDistance: the array sort is modelled as an insertion sort on values, and its stability is stated as "each distance keeps its entries in input order" with a uniqueness lemma. The engine's code computes values, so there is no in-place method.
- Numbers are reals: the distance, bearing and heading arithmetic ignores floating-point rounding.
- `formatMeters` (app/app/page.tsx:25-29): float rounding and `toFixed` formatting.
- Camera start and stop, the geolocation watch and the POI fetch (app/app/page.tsx:101-166): browser I/O. Their results are the inputs of the engine.
- Orientation.Compass.EnableCompass: the permission request is awaited. A second call made during that wait could enable the compass twice; the model runs each call to completion.
- Orientation: listener removal on unmount (app/app/page.tsx:198-206) is not modelled; the listeners are a set of event names.
- CardText.ClampText: lengths are counted in characters, not UTF-16 code units, so a surrogate pair counts once.
- CardText.StripMarkdown: the contract states the shape of the result (no markers, single spaces, trimmed), not which words survive the image and link rules.
- Markdown.RenderMarkdownToHtml: its own contract states the empty case and the absence of blank lines. Its full output is stated by Markdown.RenderByLines under that lemma's hypotheses, and proved outright for the example document.
- Markdown.RenderMarkdownFixed: its own contract states only the empty case and the absence of blank lines. Its output line by line is stated by Markdown.RenderByLines, which needs the escaped text to hold no line terminator other than LF (a lone CR or U+2028 is not covered) and needs the rendered lines to be item or plain lines. That escaped text always meets the second hypothesis is not proved.
- Regex: the regular expressions are modelled as hand-written matchers for these patterns, not as a general regular expression engine.
- Auth: the HMAC (`crypto.createHmac`) is a `sign` parameter, `Date.now` a `now` parameter and `Number(...)` a parameter. `timingSafeEqual` is modelled as throwing on byte lengths that differ.
- Auth.GetAdminSession: it calls the corrected verifier, Auth.VerifySessionTokenChecked. So a token on which `verifySessionToken` throws gives no session here, while in the source the exception reaches the caller (a route then answers 500). That throwing case is stated by Auth.VerifySessionToken and Auth.NonAsciiSignatureThrows.
- Auth: the cookie writers, the credential lookup and the environment (lib/auth.ts:59-84) are framework I/O.
- PoisRoute.Post: it receives the session value rather than reading the cookie. A throw inside `verifySessionToken` would answer 500, which is not modelled. `Number` and `String` on other values are parameters.
- The list `GET` (app/api/pois/route.ts:7-14) and the Prisma `create` are persistence; the record is returned instead of stored.
- PoiForm.Form.StartSubmit: the payload is not returned with the request; it is `PoiForm.PayloadOf` of the unchanged values.
- PoiForm: `fetch`, `res.json()`, `confirm` and `router.push`/`router.refresh` are outcomes given as parameters, or a list of visited pages.
- AdminNav.LogoutDestination: the logout request is an outcome parameter; `router.refresh` is not modelled.
- Login and logout routes, UI pages, the service worker, the seed script and next.config.mjs: thin wrappers, presentation or configuration.

## Findings

| source | as written | input that shows it | evidently intended | confidence | as-written member | corrected member |
|---|---|---|---|---|---|---|
| lib/markdown.ts:40 | the list expression ends in `\n?`, so the `<ul>` takes the newline after the last item, leaving one newline before the next block | "- a", a blank line, "b": "b" stays in the list's block and gets no `<p>` | each run of items becomes one `<ul>` and the blank line after it still separates the next block | not executed | RenderExamples.ListSwallowsParagraph | RenderExamples.FixedKeepsParagraph |
| lib/auth.ts:37-39 | the lengths compared are JavaScript string lengths, but `timingSafeEqual` compares UTF-8 buffers and throws when their lengths differ | a signature "aé" against an expected "ab": equal lengths 2, byte lengths 3 and 2, so verification throws instead of returning null | a wrong signature of any form yields null | not executed | Auth.NonAsciiSignatureThrows | Auth.VerifySessionTokenChecked |
