# X-ID2Username: username resolution, modelled in Dafny

X-ID2Username turns a follower export into a list of X usernames. `main.py`
reads the `userLink` of every follower record, opens each link in a logged-in
browser, lets client-side redirects settle, and extracts a username. It tries
the final URL first: the `screen_name=` query parameter, then the first path
segment after `x.com/` unless it is a reserved route. Only then does it look at
the rendered page: the title, then the first meta content holding `@`, then the
first div/span/a text holding `@`. Each name goes to `followers.txt`; each link
that yields nothing goes, verbatim, to `failed_urls.txt`. `retry_failed_urls.py`
reads `failed_urls.txt` back as stripped, non-blank lines. It resolves each one
again from the URL alone and appends to `followers.txt` or `failed_urls2.txt`.

The model replaces the browser, the clock and the files by values:
- a `Visit` holds what the browser would produce for one link: the successive
  reads of `current_url`, the number of one-second polls that fit in the
  ten-second ceiling, the page (title, meta contents, element texts), and the
  point at which the session raised, if it did;
- a `Workspace` object holds the three text files as optional line sequences
  (`None` when the file does not exist), and its methods append or truncate
  in place.

Modules:
- `Patterns` (patterns.dfy): Python's `re.search` for the three patterns the
  scripts use, all of the shape `LIT([cls]+)`. The match is the leftmost
  position where the literal is followed by one class character, and the group
  is the maximal run of class characters.
- `Resolver` (resolver.dfy): `get_username_from_url` of main.py, covering the
  URL rules, the content chain and the redirect-settle loop.
- `Ledgers` (ledgers.dfy): the files, appending, and the split of outcomes
  into the success and failure ledgers.
- `FollowerExtractor` (follower_extractor.dfy): the `userLink` comprehension
  and the run loop of main.py.
- `RetryFailedUrls` (retry_failed_urls.dfy): `str.strip`, the line
  normalisation, the URL-only resolver and the loop of the retry script.

Where the code departs from what the scripts evidently intend, the model
follows the code:
- The meta and text steps examine only the first entry holding `@`. When that
  entry has no `@word` token, the step fails; later entries are not tried.
- The path rule is not anchored to a host: `fox.com/bob` yields `bob`.
- The settle loop reads `current_url` a second time to assign it when it
  differs from the last value.
- `final_url` is a fresh read after the loop, not the last value seen.
- The retry pass never truncates `failed_urls2.txt`. A retry over an empty or
  blank `failed_urls.txt` leaves it as it was, not empty.

## Model

| member | source | states |
|---|---|---|
| Patterns.Run | main.py:215-217 | the captured group is the longest prefix made of class characters: each character is in the class and the next one is not |
| Patterns.FirstMatchFrom | main.py:215 | the result is the first position from `i` where the literal is followed by a class character; there is none when no position matches |
| Patterns.Search | main.py:215-217 | a match exists exactly when some position matches; its start is the leftmost one, and its group is the maximal run after the literal |
| Patterns.GroupShape | main.py:222-224 | a captured group is non-empty, made of class characters, found in the string right after the literal, and cannot be extended |
| Patterns.GroupAvoids | main.py:215-217 | a character outside the class never occurs in a captured group |
| Patterns.NoMatchBefore | main.py:222 | no match starts before `i` when the character the literal needs at some offset is absent there |
| Patterns.NoMatchWithout | main.py:215 | there is no match at all when the string lacks a character of the literal |
| Patterns.RunIs | main.py:222-224 | the run is exactly `w` when `w` is made of class characters and is followed by the end or by a non-class character |
| Patterns.LeftmostUnique | main.py:215 | two leftmost starts coincide |
| Patterns.SearchAt | main.py:215-217 | any leftmost start determines the search result |
| Resolver.ScreenNameWins | main.py:214-219 | with a `screen_name=` match, the answer is the maximal non-`&` run after its leftmost occurrence, whatever the path holds |
| Resolver.PathDecides | main.py:221-226 | without a `screen_name=` match, the leftmost `x.com/` segment decides: the answer is the segment unless it is `intent`, `i` or `user`, and a reserved segment is not passed over for a later one |
| Resolver.UrlUsername | main.py:211-226 | a URL-derived name is non-empty, and one taken from the path is never `intent`, `i` or `user`; which name wins is stated by `ScreenNameWins` and `PathDecides` |
| Resolver.NeitherPatternNothing | main.py:211-226 | a URL matching neither pattern yields nothing from the URL rules |
| Resolver.UrlUsernameShape | main.py:215-226 | a URL-derived name is non-empty and occurs in the URL; a query value holds no `&`; a path segment holds no `/` and no `?` |
| Resolver.NoMarkNoHandle | main.py:238-239 | a string without `@` has no handle token |
| Resolver.ProfileUrlMatches | main.py:222 | in `<front>x.com/<segment><tail>` with no `x` in the front, the leftmost `x.com/` follows the front and captures the segment |
| Resolver.ProfileLink | main.py:222-226 | `https://x.com/<name>` resolves to `name` for every non-reserved name without `/`, `?` or `=` |
| Resolver.UnanchoredHost | main.py:222-226 | `https://fox.com/<name>` resolves to `name` as well |
| Resolver.ReservedAreSegments | main.py:223 | the reserved routes are non-empty and hold no `/`, `?` or `=` |
| Resolver.ReservedRoute | main.py:222-223 | `https://x.com/intent`, `/i` or `/user`, followed by nothing or by a path or query holding no `=`, yields nothing from the URL |
| Resolver.IntentUrlMatches | main.py:215 | in `https://x.com/intent/user?screen_name=<name><more>`, the leftmost `screen_name=` starts at 26 and captures `name` |
| Resolver.IntentLink | main.py:214-219 | such an intent link resolves to `name`, although its path starts with the reserved `intent` |
| Resolver.HandleToken | main.py:238-241 | a handle token is non-empty and is found only in text holding `@`, so the title's `@` test never loses a token |
| Resolver.FirstWithMark | main.py:246-254 | the result holds `@` and is the first entry that does; it is absent exactly when no entry holds `@` |
| Resolver.TokenOfFirst | main.py:246-261 | a meta or element step yields a non-empty token, and only when some entry holds `@`; which token is stated by `TokenOfFirstAt` |
| Resolver.TokenOfFirstAt | main.py:246-280 | the meta or element step yields the handle token of the first entry holding `@`, or nothing when that entry has none |
| Resolver.ContentUsername | main.py:229-283 | a content-derived name is non-empty and never comes from a visit whose content stage raised before the title; the order of the steps and the effect of each fault are stated by `TitleFirst`, `MetaBeforeTexts`, `MetaFaultLosesRest` and `TextsLast` |
| Resolver.TitleFirst | main.py:236-243 | a title with a handle token decides the content stage, whatever the metas and texts hold |
| Resolver.FirstWithMarkPrefix | main.py:247-253 | entries after the first one holding `@` never change the result |
| Resolver.LaterMetasIgnored | main.py:245-261 | meta contents after the first one holding `@` never change the content result |
| Resolver.LaterTextsIgnored | main.py:263-280 | element texts after the first one holding `@` never change the content result |
| Resolver.MetaBeforeTexts | main.py:245-261 | without a title handle, a meta handle is the answer whatever the element texts hold, unless the meta script itself raised |
| Resolver.TextsLast | main.py:263-283 | with neither a title nor a meta handle, the element step decides the answer, and a fault in its script yields nothing |
| Resolver.MetaFaultLosesRest | main.py:245-288 | without a title handle, a fault in the meta script yields nothing, whatever the metas and texts hold |
| Resolver.FaultNeverInvents | main.py:229-283 | an exception in the content stage can only lose a name, never produce a different one |
| Resolver.ContentUsernameShape | main.py:237-280 | a content-derived name is a non-empty run of word characters and is the handle token of the title, a meta content or an element text |
| Resolver.ProfileTitleSearch | main.py:239 | in `Name (@handle) / X` with no `@` in the display name, the leftmost `@` is the handle's and the captured group is exactly the handle |
| Resolver.ProfileTitleHandle | main.py:237-241 | the handle token of `Name (@handle) / X` is `handle` when the display name holds no `@` |
| Resolver.ProfileTitle | main.py:236-243 | such a title yields `handle` from the content stage, whatever the metas and texts hold |
| Resolver.Poll | main.py:198-206 | the loop stops within the poll budget; it stops early only after two equal consecutive reads; each poll that saw a change used two reads and a final stable poll one, and `current_url` holds the last read |
| Resolver.PollMoves | main.py:201-203 | every poll before a final stable one compared a read against the URL assigned just before it and saw a change |
| Resolver.Settle | main.py:194-208 | polls stay within the budget; either the budget is used up or the last two reads of the loop were equal; every earlier poll saw a change; the loop used exactly two reads per moving poll and one for a stable exit, and `final_url` is the read right after them |
| Resolver.SettleRedirects | main.py:194-208 | the imperative polling loop computes `Settle` |
| Resolver.Resolution | main.py:185-292 | a resolved name is non-empty and never follows a navigation fault; the choice between URL and content is stated by `UrlBeatsContent` and `UrlMissFallsToContent` |
| Resolver.GetUsernameFromUrl | main.py:182-292 | the method returns `Resolution`: nothing after a navigation fault, else the URL rules on the settled URL, else the content chain |
| Resolver.UrlBeatsContent | main.py:211-226 | when the final URL yields a name, that name is the result, and the page and its faults are never consulted |
| Resolver.UrlMissFallsToContent | main.py:228-288 | when the final URL yields nothing, the answer is the content chain's |
| Resolver.ResolutionNonEmpty | main.py:285-288 | every returned name is non-empty, so the caller's truth test accepts exactly the returned names |
| Ledgers.Workspace.ClearOutputs | main.py:326-328 | both ledgers of main.py exist and are empty |
| Ledgers.Workspace.AppendFollower | main.py:294-299 | followers.txt gains exactly the name as its last line |
| Ledgers.Workspace.AppendFailedUrl | main.py:294-299 | failed_urls.txt gains exactly the link as its last line |
| Ledgers.Workspace.AppendFailedUrl2 | retry_failed_urls.py:133-136 | failed_urls2.txt gains exactly the link as its last line |
| Ledgers.Successes | main.py:343-348 | the success ledger has at most one entry per link; its contents are stated by `SuccessesAreOutcomes` and `LedgersSnoc` |
| Ledgers.Failures | main.py:350-353 | the failure ledger has at most one entry per link; its contents are stated by `FailuresAreInputLinks` and `LedgersSnoc` |
| Ledgers.LedgersPartition | main.py:340-354 | every link lands in exactly one ledger |
| Ledgers.FailuresAreInputLinks | main.py:350-353 | the failure ledger holds only input links, never final URLs |
| Ledgers.SuccessesAreOutcomes | main.py:343-348 | every success entry is non-empty and is what some link resolved to |
| Ledgers.LedgersSnoc | main.py:345-354 | one more outcome extends exactly one ledger by one entry: the name if it is truthy, else the link |
| Ledgers.ThreeLinkRun | main.py:340-354 | a hit, a miss and a hit give success ledger `[first, third]` and failure ledger `[second link]` |
| Ledgers.AppendAllSnoc | main.py:294-299 | appending one line after a batch is appending the extended batch |
| Ledgers.AppendAllToEmpty | main.py:326-328 | a truncated file holds exactly what is appended to it afterwards |
| Ledgers.LedgerStep | main.py:343-354 | processing link `i` adds that link's entry to the right ledger and changes both ledger lengths accordingly |
| FollowerExtractor.UserLinks | main.py:175 | at most one link per record, and every link is the `userLink` of a record whose `follower` holds one |
| FollowerExtractor.UserLinksAppend | main.py:175 | extraction keeps input order: it distributes over concatenation |
| FollowerExtractor.UserLinksAllLinked | main.py:175 | when every record carries a link, the i-th link is the i-th record's |
| FollowerExtractor.Outcomes | main.py:340-343 | one outcome per link |
| FollowerExtractor.OutcomesAt | main.py:343 | the i-th outcome is the resolution of the i-th visit |
| FollowerExtractor.ResolveLink | main.py:343 | resolving the i-th link yields the i-th outcome |
| FollowerExtractor.ResolveAll | main.py:340-360 | the loop appends the resolved names, in order, to followers.txt and the original links of the misses to failed_urls.txt; the counters equal the two ledger lengths, and `len - 1` pauses are taken |
| FollowerExtractor.RunMain | main.py:319-360 | the links are those extracted from the follower records; after a run both ledgers are exactly the successes and the failures over those links; they are empty when login failed; the counters equal the ledger lengths and add up to the number of links |
| RetryFailedUrls.StripStart | retry_failed_urls.py:158 | the result is no longer than the input and does not start with whitespace |
| RetryFailedUrls.StripStartShape | retry_failed_urls.py:158 | the result is a suffix of the input, and what it drops is whitespace |
| RetryFailedUrls.StripEnd | retry_failed_urls.py:158 | the result is no longer than the input and does not end with whitespace |
| RetryFailedUrls.StripEndShape | retry_failed_urls.py:158 | the result is a prefix of the input, and what it drops is whitespace |
| RetryFailedUrls.Strip | retry_failed_urls.py:158 | the result has no whitespace at either end and is no longer than the input |
| RetryFailedUrls.StripShape | retry_failed_urls.py:158 | the result occurs in the input, with only whitespace before and after it |
| RetryFailedUrls.StripKeepsStripped | retry_failed_urls.py:158 | text without whitespace at its ends is left alone |
| RetryFailedUrls.StripIdempotent | retry_failed_urls.py:158 | stripping twice is stripping once |
| RetryFailedUrls.StripIgnoresTrailingSpace | retry_failed_urls.py:158 | a trailing whitespace character never changes the result |
| RetryFailedUrls.StripIgnoresNewline | retry_failed_urls.py:157-158 | the line terminator that file iteration keeps is removed again |
| RetryFailedUrls.NormalizeLines | retry_failed_urls.py:158 | normalisation never produces more links than lines |
| RetryFailedUrls.NormalizeLinesOne | retry_failed_urls.py:158 | a single line becomes its stripped form when that is non-empty and nothing otherwise; with `NormalizeLinesAppend` this fixes the result for every file |
| RetryFailedUrls.NormalizeLinesShape | retry_failed_urls.py:158 | every link is non-empty and stripped |
| RetryFailedUrls.NormalizeLinesAppend | retry_failed_urls.py:158 | normalisation keeps the file's order: it distributes over concatenation |
| RetryFailedUrls.NormalizeLinesReadBack | retry_failed_urls.py:157-158 | a ledger of non-empty stripped links reads back as exactly those links |
| RetryFailedUrls.AllSpaceStripsToEmpty | retry_failed_urls.py:158 | a line of whitespace strips to nothing |
| RetryFailedUrls.NormalizeLinesBlank | retry_failed_urls.py:158 | a file of blank lines yields no links |
| RetryFailedUrls.RetryUrlUsername | retry_failed_urls.py:113-128 | the retry script's URL rules agree with main.py's on every URL |
| RetryFailedUrls.RetryAgreesWithMain | retry_failed_urls.py:110-128 | on the same final URL, a retry finds what main.py's URL rules find, and never resolves a link that main.py failed on |
| RetryFailedUrls.RetryResolution | retry_failed_urls.py:106-131 | a retry name is non-empty and never follows an exception; its value is stated by `RetryResolvesByUrl` |
| RetryFailedUrls.RetryResolvesByUrl | retry_failed_urls.py:108-131 | without an exception, a retry answers with main.py's URL rules on its final URL; with one, it yields nothing |
| RetryFailedUrls.GetUsernameFromUrl | retry_failed_urls.py:106-131 | the method returns nothing after an exception, else the URL rules on the final URL |
| RetryFailedUrls.RetryAll | retry_failed_urls.py:160-167 | the loop appends the resolved names, in order, to followers.txt and the stripped links of the misses to failed_urls2.txt |
| RetryFailedUrls.RunRetry | retry_failed_urls.py:146-167 | failed_urls.txt is never written; nothing changes when login failed, the file is missing or it holds only blank lines; otherwise both outputs gain exactly the successes and failures of the normalised lines |

## Left out

- Browser setup, including the headless fallback, and the login flows: the model takes the login result as a boolean.
- The JavaScript DOM queries: the page is given as its title, the `content` attributes of its meta tags and the texts of its div/span/a elements, in document order. A meta tag without `content` is left out of the list.
- `time.sleep` and `time.time()`: the ten-second ceiling becomes a poll budget. The two-second pause between links is only counted.
- Logging, YAML configuration, reading `follower.json` and `json.load`.
- The JSON fallback of `extract_urls_from_follower_json`. It calls `file.read()` after `json.load` has consumed the stream, so its regex always sees an empty string and the function raises.
- FollowerExtractor.UserLinks: records whose `follower` is not an object, or whose `userLink` is not a string, are not modelled; the record type only admits objects of strings.
- Failing writes: `append_to_file` in main.py can return False while the counters still count the link, and the retry script's writes can raise. Every append is modelled as succeeding.
- Python's Unicode `\w` and Unicode whitespace: `IsWordChar` and `IsSpace` are their ASCII parts.
- Entries holding a line break, which would split into several lines when read back; universal-newline translation of `\r\n`.
- Errors outside the per-link `try` blocks, such as an exception while truncating the files or reading `failed_urls.txt`, and the closing of the browser session.
- Resolver.GetUsernameFromUrl: a session fault after navigation but before the URL rules, such as a read of `current_url` raising, is folded into `navigationFault`.
