# MBOA PLACE front-end logic in Dafny

MBOA PLACE is a classifieds site with a React front end over a Supabase back end. This project models the
logic that the site's pages and utilities run in the browser, and proves properties of it. The database,
storage and authentication calls are left out: their results are inputs to the model.

Modules, one per source file or shared concept:

- `Cache` (`src/utils/cache.js`): the in-memory TTL cache `CacheManager`.
  - Get, set, invalidate, invalidate by prefix, clear, cleanup and stats are methods on a `map` field.
  - Each method is proved against a function on maps.
  - `generateKey` builds a key from the prefix and the parameters sorted by name. The key does not depend on the order of the parameters.
- `DateHelpers` (`src/utils/dateHelpers.js`): `timeAgo`, the French "how long ago" text, and its unit thresholds.
- `Register` (`src/pages/RegisterPage.jsx`): the four-point password strength score, the strength indicator, and the checks `handleSubmit` runs before requesting an account.
- `Listing` (`src/constants/index.js` and the shared parts of the listing pages): the file and form limits, and the stored price rule.
- `Publish` (`src/pages/PublishPage.jsx`): the five-step wizard as a class `PublishWizard`.
  - Steps are gated by the form validation.
  - Files and their preview URLs are kept in lockstep.
  - Publishing builds the inserted row.
  - A bug in the "publish another" reset is reported under Findings.
- `EditAnnonce` (`src/pages/EditAnnoncePage.jsx`): the listing editor, with its image cap, file removal and save validation.
  - The save uploads new images one at a time and stops at the first failure (`UploadInOrder`, a loop).
- `CategoryDetail` (`src/pages/CategoryDetailPage.jsx`): from a URL slug to a category.
  - The slug is looked up among the known categories.
  - When none matches, a display name is derived from the slug. Its `&` replacement misfires inside words.
  - Also the sort order, and the reset and city handlers.
- `Pagination` (`src/pages/HomePage.jsx`, `src/pages/CategoryDetailPage.jsx`): the "load more" feed.
  - It fetches page-sized ranges that are adjacent and do not overlap.
  - It appends or replaces the items, and keeps the `hasMore` and loading flags.
- `Messages` (`src/pages/MessagesPage.jsx`): the inbox as a class `Inbox`.
  - Realtime inserts and updates.
  - Per-conversation unread counts, where the count of the opened conversation is reset.
  - Loading the conversation list, selecting a conversation, and loading the unread counts once, one conversation at a time.
  - Deleting a conversation, the conversation search, and the sending guard.
  - Grouping messages by day: a loop proved to produce a partition in first-seen order.
- `SearchParams`: the ordered parameter list that `URLSearchParams.append` builds and `get` reads.
- `SearchModal` (`src/components/SearchModal.jsx`) and `AdvancedSearchModal` (`src/components/AdvancedSearchModal.jsx`): the two search forms.
  - Each handler's parameter list is read back field by field.
  - The advanced form's list is read back by the results page, end to end.
- `SearchResults` (`src/pages/SearchResultsPage.jsx`): how the results page reads its parameters, the location filter, and the one-line summary of the active filters.
- `Seqs` and `Text`: the JavaScript array and string primitives these rely on.
  - Arrays: `filter`, `map`, `slice`, and filtering by index.
  - Strings: `trim`, Latin-1 case mapping, `includes`, `replace`, `split`, `join`, and integer rendering.

The clock (`Date.now()`), file pickers, object URLs, locale date formatting and server responses are
parameters of the operations that use them.

## Model

| member | source | states |
|---|---|---|
| Cache.Lookup | src/utils/cache.js:36-53 | a live entry is a hit that returns its value and leaves the store as it was; an absent key misses and changes nothing; an expired entry misses and only it is deleted |
| Cache.Store | src/utils/cache.js:61-71 | the key is present with the new value afterwards and the key set grows by exactly that key |
| Cache.TtlOrDefault | src/utils/cache.js:8-12 | a missing TTL means the five-minute default; a given TTL is used as it is |
| Cache.PrefixKeys | src/utils/cache.js:89-104 | exactly the stored keys that start with the prefix |
| Cache.WithoutPrefix | src/utils/cache.js:89-104 | drops exactly the prefixed keys and keeps every other entry unchanged |
| Cache.ExpiredKeys | src/utils/cache.js:118-134 | exactly the stored keys whose entry is strictly past its expiry |
| Cache.Swept | src/utils/cache.js:118-134 | drops exactly the expired keys; every survivor is unchanged and live |
| Cache.RemovedCount | src/utils/cache.js:89-104 | removing a set of present keys shrinks the store by the size of that set, which is the count returned |
| Cache.SetThenGetHit | src/utils/cache.js:36-71 | a value set at t is returned by a get up to and including t + ttl |
| Cache.SetThenGetExpired | src/utils/cache.js:36-71 | after t + ttl the get misses and the entry is deleted |
| Cache.GetMissFrame | src/utils/cache.js:36-53 | a miss on an absent key changes nothing; a miss on an expired key deletes only that key |
| Cache.SetOverwrites | src/utils/cache.js:61-71 | a second set of the same key replaces the first entirely and leaves the other keys alone |
| Cache.InvalidateTwice | src/utils/cache.js:77-83 | invalidate removes the key, shrinks the store by one, and a second invalidate is a no-op |
| Cache.InvalidateByPrefixShrinks | src/utils/cache.js:89-104 | a key survives iff it lacks the prefix, and the size drops by the number of prefixed keys |
| Cache.CleanupShrinks | src/utils/cache.js:118-134 | cleanup shrinks the store by the number of expired keys and keeps every live entry |
| Cache.SweepAgreesWithGet | src/utils/cache.js:36-53 | a get after cleanup at the same time returns what the get would have returned without it |
| Cache.BelowIrreflexive | src/utils/cache.js:20-29 | the name order used by the key's sort never puts a name before itself |
| Cache.BelowAsymmetric | src/utils/cache.js:20-29 | the name order is asymmetric |
| Cache.BelowTotal | src/utils/cache.js:20-29 | any two distinct names are ordered one way or the other |
| Cache.BelowTransitive | src/utils/cache.js:20-29 | the name order is transitive |
| Cache.InsertByName | src/utils/cache.js:20-29 | insertion adds exactly the new parameter |
| Cache.InsertByNameSorted | src/utils/cache.js:20-29 | insertion into a name-sorted list keeps it sorted |
| Cache.SortByName | src/utils/cache.js:20-29 | the sort is a permutation of the parameters |
| Cache.SortByNameSorted | src/utils/cache.js:20-29 | the sorted parameters are in name order |
| Cache.SortedUnique | src/utils/cache.js:20-29 | two sorted permutations of parameters with distinct names are equal |
| Cache.GenerateKey | src/utils/cache.js:20-29 | every key starts with the prefix followed by a colon |
| Cache.GenerateKeyOrderIndependent | src/utils/cache.js:20-29 | the same parameters given in any order give the same key |
| Cache.GeneratedKeyInvalidatedByPrefix | src/utils/cache.js:20-29 | every key generated for a prefix is removed by invalidating that prefix |
| Cache.CacheManager.constructor | src/utils/cache.js:8-12 | the store starts empty |
| Cache.CacheManager.Get | src/utils/cache.js:36-53 | the result and the new store are those of `Lookup` |
| Cache.CacheManager.Set | src/utils/cache.js:61-71 | the new store is `Store` with the TTL or the default |
| Cache.CacheManager.Invalidate | src/utils/cache.js:77-83 | returns whether the key was present and removes exactly it |
| Cache.CacheManager.InvalidateByPrefix | src/utils/cache.js:89-104 | the loop removes exactly the prefixed keys and returns how many there were |
| Cache.CacheManager.Clear | src/utils/cache.js:109-113 | the store is empty |
| Cache.CacheManager.Cleanup | src/utils/cache.js:118-134 | the loop removes exactly the expired keys and returns how many there were |
| Cache.CacheManager.GetStats | src/utils/cache.js:139-148 | one line per stored key, no key twice, each with its time to expiry and its age |
| DateHelpers.TimeAgo | src/utils/dateHelpers.js:10-48 | a falsy date gives the empty text; a date `new Date` cannot parse gives "NaN seconde"; otherwise the text describes the elapsed whole seconds |
| DateHelpers.Describe | src/utils/dateHelpers.js:15-47 | definition (no contract): the unit cascade; `DescribeUnit`, `DescribeSeconds` and `StrictThresholds` state what it gives |
| DateHelpers.DescribeUnit | src/utils/dateHelpers.js:15-45 | above a unit's threshold and below the next one, the text is the count in that unit (at least one) with the plural rule |
| DateHelpers.ReportedUnitExists | src/utils/dateHelpers.js:17-45 | past one minute exactly one unit applies |
| DateHelpers.DescribeSeconds | src/utils/dateHelpers.js:47 | up to one minute the text counts seconds, singular for at most one |
| DateHelpers.StrictThresholds | src/utils/dateHelpers.js:35-47 | the thresholds are strict: exactly one day reads "24 heures", one hour "60 minutes", one minute "60 secondes" |
| Register.Strength | src/pages/RegisterPage.jsx:21-28 | the score is at most 4, is 0 iff no criterion holds and 4 iff all four hold |
| Register.MixedCaseOnOneLine | src/pages/RegisterPage.jsx:24 | on a single line, the lower-then-upper-or-upper-then-lower test means the password has both cases |
| Register.StrengthGrows | src/pages/RegisterPage.jsx:21-28 | typing more characters never lowers the score |
| Register.Indicator | src/pages/RegisterPage.jsx:71-90 | scores 2-4 give their own level, 0 and 1 the weak level, anything else no indicator |
| Register.IndicatorOfStrength | src/pages/RegisterPage.jsx:71-90 | every password has an indicator and it never goes down as the password grows |
| Register.Submit | src/pages/RegisterPage.jsx:39-70 | mismatched passwords stop first, then a missing city; only then is the account requested with the form's fields and "first last" as full name |
| Register.FullNameSplits | src/pages/RegisterPage.jsx:64 | a first name without a space is recovered from the full name |
| Listing.StoredPrice | src/pages/PublishPage.jsx:123 | free listings cost 0; otherwise the parsed price, with NaN and 0 stored as null |
| Seqs.WithoutIndex | src/pages/PublishPage.jsx:192-193 | drops the element at a valid index and keeps the rest in order; an invalid index drops nothing |
| Seqs.SliceTo | src/pages/PublishPage.jsx:178 | `slice(0, end)` with clamping and negative ends counted from the back |
| Publish.FilesToAdd | src/pages/PublishPage.jsx:157-178 | definition (no contract): the files within the size limit, cut to the room left; `FilesToAddKept` and `FilesToAddCapped` state its properties |
| Publish.FilesToAddKept | src/pages/PublishPage.jsx:160-178 | the added files are small enough, were selected, and are a prefix of the accepted ones; all of them when the cap allows |
| Publish.FilesToAddCapped | src/pages/PublishPage.jsx:178 | the listing never exceeds six images, and a full listing accepts nothing |
| Publish.SplitBySize | src/pages/PublishPage.jsx:157-166 | the loop splits the selection into the files within the size limit, in order, and the names of the rest |
| Publish.ValidateDetails | src/pages/PublishPage.jsx:196-232 | passes iff every field rule holds; each error names the first failing rule, with the rules before it holding |
| Publish.BlankTitleMissing | src/pages/PublishPage.jsx:198 | a title of spaces only is reported as missing |
| Publish.UploadedUrls | src/pages/PublishPage.jsx:101-115 | when every upload succeeded, the URLs are the uploads' results in file order |
| Publish.PublishResult | src/pages/PublishPage.jsx:87-151 | not signed in and no city stop first; a listing is published iff all uploads and the insert succeed, and then the row holds the form's title, description, price rule, negotiable and free flags, the category, subcategory, currency, city, the "active" status and the uploaded URLs in order |
| Publish.FreeListingPriceZero | src/pages/PublishPage.jsx:123 | a free listing is inserted with price 0 |
| Publish.ResetPhotosAsWritten | src/pages/PublishPage.jsx:346 | as written: the files are cleared and the previews kept |
| Publish.ResetAsWrittenShowsStalePreview | src/pages/PublishPage.jsx:346 | after that reset and one new photo, the first preview shown is the old photo's |
| Publish.ResetPhotos | src/pages/PublishPage.jsx:346 | corrected: files and previews are both cleared |
| Publish.PublishWizard.constructor | src/pages/PublishPage.jsx:20-40 | step 1, nothing selected, empty form, CAD currency |
| Publish.PublishWizard.SelectCategory | src/pages/PublishPage.jsx:82-85 | picking a category clears the subcategory and changes nothing else |
| Publish.PublishWizard.NextFromCategory | src/pages/PublishPage.jsx:257 | step 1 advances only with a category and a subcategory |
| Publish.PublishWizard.NextFromDetails | src/pages/PublishPage.jsx:281 | step 2 advances iff the details validate |
| Publish.PublishWizard.GoTo | src/pages/PublishPage.jsx:280-331 | the back and forward buttons move between steps; step 4's back button does nothing while publishing |
| Publish.PublishWizard.HandleFileChange | src/pages/PublishPage.jsx:153-185 | files and previews both grow by the accepted files, the oversized names are reported, lockstep is kept |
| Publish.PublishWizard.RemoveFile | src/pages/PublishPage.jsx:187-194 | the file and its preview leave together |
| Publish.PublishWizard.PublishListing | src/pages/PublishPage.jsx:87-151 | the outcome is `PublishResult`; step 5 iff published; the loading flag is cleared after any attempt past the guards |
| Publish.PublishWizard.PublishAnother | src/pages/PublishPage.jsx:346 | back to step 1 with no category and no files or previews |
| EditAnnonce.AddNewFiles | src/pages/EditAnnoncePage.jsx:106-120 | rejects the whole selection iff it would exceed six images; otherwise appends the selected files within the size limit |
| EditAnnonce.SaveResult | src/pages/EditAnnoncePage.jsx:134-191 | title and description, then category, then city are checked in that order, each error iff the earlier checks pass and its own fails; saved iff all pass and every upload and the update succeed, and then the update holds every form field, the category, subcategory, currency and city, and the kept images followed by the uploaded ones |
| EditAnnonce.UploadedBeforeFailure | src/pages/EditAnnoncePage.jsx:153-161 | the URLs of the uploads before the first failure, in order |
| EditAnnonce.UploadedAll | src/pages/EditAnnoncePage.jsx:153-163 | every file is uploaded iff none failed, and then the URLs agree with the publish page's |
| EditAnnonce.UploadedBeforeFailureUnique | src/pages/EditAnnoncePage.jsx:153-161 | that prefix of URLs is the only one satisfying its specification |
| EditAnnonce.UploadInOrder | src/pages/EditAnnoncePage.jsx:153-161 | the loop returns the URLs before the first failure and makes one more attempt only when one failed |
| EditAnnonce.ListingEditor.constructor | src/pages/EditAnnoncePage.jsx:59-89 | the listing's images, category, city and form, no new files |
| EditAnnonce.ListingEditor.HandleNewFileChange | src/pages/EditAnnoncePage.jsx:106-120 | the new files and previews are those of `AddNewFiles`, or unchanged when it rejects |
| EditAnnonce.ListingEditor.RemoveExistingImage | src/pages/EditAnnoncePage.jsx:122-124 | removes one kept image |
| EditAnnonce.ListingEditor.RemoveNewFile | src/pages/EditAnnoncePage.jsx:126-132 | removes one new file with its preview |
| EditAnnonce.ListingEditor.Save | src/pages/EditAnnoncePage.jsx:134-191 | the outcome is `SaveResult`; a saved update's images are the kept ones followed by the URLs the upload loop returned; the saving flag is set only past the guards and cleared at the end |
| CategoryDetail.Slug | src/pages/CategoryDetailPage.jsx:32 | definition (no contract): lower-case, then " & " and each space become "-"; `SlugShape` and `SlugOfWords` state its properties |
| CategoryDetail.SlugShape | src/pages/CategoryDetailPage.jsx:31-33 | a slug has no spaces and no upper-case letters |
| CategoryDetail.SlugOfWords | src/pages/CategoryDetailPage.jsx:31-33 | "A & B" gives "a-b" |
| CategoryDetail.FirstMatch | src/pages/CategoryDetailPage.jsx:31-33 | the first category whose slug matches |
| CategoryDetail.FindBySlug | src/pages/CategoryDetailPage.jsx:31-33 | no category iff none matches; otherwise the first that does |
| CategoryDetail.Capitalize | src/pages/CategoryDetailPage.jsx:44-48 | only the first letter is upper-cased |
| CategoryDetail.CategoryName | src/pages/CategoryDetailPage.jsx:44-48 | definition (no contract): split on "-", capitalize, join with spaces, replace the first "Et"; the lemmas below state its results |
| CategoryDetail.CategoryNameHasNoHyphen | src/pages/CategoryDetailPage.jsx:44-48 | the derived name never contains a hyphen |
| CategoryDetail.NameOfThreeWordSlug | src/pages/CategoryDetailPage.jsx:44-48 | "maison-et-jardin" gives "Maison & Jardin" |
| CategoryDetail.NameReplacesInsideWord | src/pages/CategoryDetailPage.jsx:44-48 | "etudes-et-emploi" gives "&udes Et Emploi": the replacement also hits "Et" at a word's start |
| CategoryDetail.ThreeWordName | src/pages/CategoryDetailPage.jsx:44-48 | a three-word slug gives the capitalized words joined by spaces, then the replacement |
| CategoryDetail.ResolveCategory | src/pages/CategoryDetailPage.jsx:31-55 | a listed category when the slug matches one, otherwise the derived name with no subcategories |
| CategoryDetail.ResolveFindsListed | src/pages/CategoryDetailPage.jsx:31-55 | a category's own slug resolves to it when no earlier category shares that slug |
| CategoryDetail.SortOrder | src/pages/CategoryDetailPage.jsx:91-103 | the two price sorts order by price in their direction; anything else newest first |
| CategoryDetail.CategoryBrowser.constructor | src/pages/CategoryDetailPage.jsx:18-29 | no filters, "recent" sort, a fresh feed loading page 0 |
| CategoryDetail.CategoryBrowser.ResetFilters | src/pages/CategoryDetailPage.jsx:164-172 | every filter cleared, the feed back to page 0 with more to load |
| CategoryDetail.CategoryBrowser.CitySelect | src/pages/CategoryDetailPage.jsx:174-179 | a city sets the filter and its text; anything else changes nothing |
| Pagination.CurrentPage | src/pages/HomePage.jsx:33 | definition (no contract): the next page when loading more, page 0 otherwise |
| Pagination.RequestRange | src/pages/HomePage.jsx:33-35 | an inclusive range of exactly one page |
| Pagination.RangesAdjacent | src/pages/HomePage.jsx:33-35 | consecutive pages touch without overlapping, and later pages come strictly later |
| Pagination.RangeOwner | src/pages/HomePage.jsx:33-35 | an index lies in exactly one page's range, page index / page size |
| Pagination.LoadMoreContinues | src/pages/HomePage.jsx:33-35 | loading more starts right after the items already loaded |
| Pagination.Feed.constructor | src/pages/HomePage.jsx:15-19 | empty, page 0, more to load, loading |
| Pagination.Feed.Fetch | src/pages/HomePage.jsx:26-75 | requests the page's range; on success appends (load more) or replaces (fresh fetch) the items, records the page, and has more iff fewer rows are shown than the query counted; an error keeps items, page and `hasMore`; the flag of the fetch kind is cleared |
| Pagination.Feed.ResetPaging | src/pages/CategoryDetailPage.jsx:164-172 | page 0 and more to load |
| Messages.ReplaceById | src/pages/MessagesPage.jsx:174-176 | every message with the updated id is replaced and every other one kept, in place |
| Messages.ReplaceByIdStable | src/pages/MessagesPage.jsx:174-176 | ids are kept, replacing twice is replacing once, and an unknown id changes nothing |
| Messages.WithoutConversation | src/pages/MessagesPage.jsx:246 | definition (no contract): the filter on the conversation id; `WithoutConversationExact` states its result |
| Messages.WithoutConversationExact | src/pages/MessagesPage.jsx:246 | exactly the conversations with another id remain, in order |
| Messages.CountOf | src/pages/MessagesPage.jsx:412 | definition (no contract): the stored counter of an id, or 0 when it has none; `SetCountOnly`, `LoadedCountOf` and `LoadedCountAbsent` state what it reads |
| Messages.SetCount | src/pages/MessagesPage.jsx:136 | the counted ids gain the conversation |
| Messages.SetCountUnique | src/pages/MessagesPage.jsx:136 | each conversation keeps a single count |
| Messages.SetCountOnly | src/pages/MessagesPage.jsx:136 | the conversation's count becomes the value and every other count is unchanged |
| Messages.Total | src/pages/MessagesPage.jsx:310 | definition (no contract): the sum of the counters |
| Messages.TotalAfterSet | src/pages/MessagesPage.jsx:310 | the unread total changes by exactly the difference in that conversation's count |
| Messages.CountOrZero | src/pages/MessagesPage.jsx:90 | a missing count reads as 0, a fetched one as itself |
| Messages.LoadedCounts | src/pages/MessagesPage.jsx:77-104 | definition (no contract): one counter set per conversation, in list order |
| Messages.LoadedCountsUnique | src/pages/MessagesPage.jsx:77-104 | the loaded counters hold one entry per conversation id |
| Messages.LoadedCountOf | src/pages/MessagesPage.jsx:77-104 | each conversation's counter is the count fetched for it, the last one if an id repeats |
| Messages.LoadedCountAbsent | src/pages/MessagesPage.jsx:77-104 | a conversation not in the list counts no unread message |
| Messages.OtherUser | src/pages/MessagesPage.jsx:254-257 | the seller for the buyer, the buyer for anyone else, nothing without a conversation |
| Messages.FilterConversations | src/pages/MessagesPage.jsx:298-305 | an empty search shows all; otherwise exactly the conversations whose other user's name or listing title contains the search, ignoring case |
| Messages.TitleMatchIgnoresCase | src/pages/MessagesPage.jsx:298-305 | a listing title containing the search text is always found |
| Messages.FirstOccurrences | src/pages/MessagesPage.jsx:286-296 | the same labels without repeats |
| Messages.WithLabel | src/pages/MessagesPage.jsx:286-296 | exactly the messages of that day |
| Messages.GroupingPartitions | src/pages/MessagesPage.jsx:286-296 | in a grouping each message is in its day's group and no other, and no day has two groups |
| Messages.GroupMessagesByDate | src/pages/MessagesPage.jsx:286-296 | the loop groups the messages by day, days in first-seen order, messages in order |
| Messages.OutgoingMessage | src/pages/MessagesPage.jsx:210-233 | nothing is sent for a blank draft or without a conversation; otherwise the trimmed text to that conversation |
| Messages.BlankDraftNotSent | src/pages/MessagesPage.jsx:212 | a draft of spaces only is not sent |
| Messages.Inbox.constructor | src/pages/MessagesPage.jsx:17-26 | no conversations, no selection, no messages, no counts |
| Messages.Inbox.ConversationsLoaded | src/pages/MessagesPage.jsx:62-71 | a loaded list replaces the conversations; an error changes nothing |
| Messages.Inbox.CountsLoaded | src/pages/MessagesPage.jsx:77-104 | the loop builds the counters one conversation at a time and they replace the whole unread map, one entry per id |
| Messages.Inbox.Select | src/pages/MessagesPage.jsx:421 | a click opens that conversation and changes nothing else |
| Messages.Inbox.OnInsert | src/pages/MessagesPage.jsx:152 | a realtime insert appends the message and changes nothing else |
| Messages.Inbox.OnUpdate | src/pages/MessagesPage.jsx:174-176 | a realtime update replaces by id and changes nothing else |
| Messages.Inbox.MessagesLoaded | src/pages/MessagesPage.jsx:124-137 | loaded messages replace the list and reset the open conversation's unread count; a failed load changes nothing |
| Messages.Inbox.DeleteConversation | src/pages/MessagesPage.jsx:235-252 | a confirmed, successful delete removes the conversation and deselects it if it was open; otherwise nothing changes |
| Messages.Inbox.Send | src/pages/MessagesPage.jsx:210-233 | sends `OutgoingMessage` and clears the draft only when it was sent and stored |
| Messages.Inbox.Visible | src/pages/MessagesPage.jsx:298-305 | definition (no contract): `FilterConversations` on the page's list and user |
| SearchParams.Get | src/pages/SearchResultsPage.jsx:18-24 | the value of the first pair with the name, none iff no pair has the name |
| SearchParams.GetOrEmpty | src/pages/SearchResultsPage.jsx:18-24 | definition (no contract): the first value under a name, or the empty text when it has none; `SearchResults.ReadSearchParams` and `AdvancedSearchModal.SubmitRoundTrip` state what it reads |
| SearchParams.Names | src/components/SearchModal.jsx:23-30 | the names of the handler lines, in order |
| SearchParams.Position | src/components/SearchModal.jsx:23-30 | the first place of a name in a fixed order |
| SearchParams.Appended | src/components/SearchModal.jsx:23-30 | the list built by the handler lines has at most one pair per line |
| SearchParams.AppendIf | src/components/SearchModal.jsx:23-30 | one `if (…) params.append` line: appends the pair iff the condition holds |
| SearchParams.AppendedSnoc | src/components/SearchModal.jsx:23-30 | running one more line extends the list the lines before built |
| SearchParams.AppendedGet | src/pages/SearchResultsPage.jsx:18-24 | reading a line's name gives its value iff its condition held |
| SearchParams.AppendedGetAbsent | src/pages/SearchResultsPage.jsx:18-24 | a name no line uses reads as missing |
| SearchParams.AppendedOrdered | src/components/AdvancedSearchModal.jsx:45-50 | the pairs follow the order of the lines, each name at most once |
| SearchModal.HandlerLines | src/components/SearchModal.jsx:23-30 | definition (no contract): the eight append lines with their conditions |
| SearchModal.HandlerLinesNamed | src/components/SearchModal.jsx:23-30 | the eight lines use eight distinct names in a fixed order |
| SearchModal.SearchReadBack | src/components/SearchModal.jsx:21-34 | each set field reads back under its name; the period whenever it is not "all"; the boxes as "true" when ticked |
| SearchModal.SearchOrdered | src/components/SearchModal.jsx:21-34 | the parameters come in the fixed order |
| SearchModal.SearchForm.constructor | src/components/SearchModal.jsx:11-19 | empty fields, period "all", boxes unticked |
| SearchModal.SearchForm.Search | src/components/SearchModal.jsx:21-34 | navigates to /recherche with the list of the handler lines |
| SearchModal.SearchForm.Reset | src/components/SearchModal.jsx:36-46 | every field back to its initial value |
| SearchModal.SearchForm.CitySelect | src/components/SearchModal.jsx:48-53 | a city sets the city and "city, country"; anything else changes nothing; no other field changes |
| AdvancedSearchModal.SubmitLines | src/components/AdvancedSearchModal.jsx:45-50 | definition (no contract): the six append lines with their conditions |
| AdvancedSearchModal.SubmitLinesNamed | src/components/AdvancedSearchModal.jsx:45-50 | the six lines use six distinct names, none of them "city" |
| AdvancedSearchModal.SubmitRoundTrip | src/components/AdvancedSearchModal.jsx:39-55 | the results page reads back every field of the submitted form and filters on its location |
| AdvancedSearchModal.SubmitOrdered | src/components/AdvancedSearchModal.jsx:39-55 | the parameters come in the fixed order |
| AdvancedSearchModal.Toggled | src/components/AdvancedSearchModal.jsx:182-185 | clicking the selected condition clears it, any other one selects it |
| AdvancedSearchModal.ToggledTwice | src/components/AdvancedSearchModal.jsx:182-185 | two clicks give back the selection when it was that button, and clear it otherwise |
| AdvancedSearchModal.AdvancedSearch.constructor | src/components/AdvancedSearchModal.jsx:29-37 | an empty form and city text |
| AdvancedSearchModal.AdvancedSearch.Submit | src/components/AdvancedSearchModal.jsx:39-55 | navigates to /search with the list of the six lines |
| AdvancedSearchModal.AdvancedSearch.ToggleCondition | src/components/AdvancedSearchModal.jsx:182-185 | only the condition changes |
| AdvancedSearchModal.AdvancedSearch.Reset | src/components/AdvancedSearchModal.jsx:57-67 | the form and city text back to empty |
| AdvancedSearchModal.AdvancedSearch.CitySelect | src/components/AdvancedSearchModal.jsx:69-74 | a city sets only the location and "city, country"; anything else changes nothing |
| SearchResults.ReadSearchParams | src/pages/SearchResultsPage.jsx:18-24 | definition (no contract): each of the seven parameters read with `get`, a missing one as the empty text; `SubmitRoundTrip` states what it recovers |
| SearchResults.LocationFilter | src/pages/SearchResultsPage.jsx:25 | the location parameter wins when set, else the city; empty iff both are |
| SearchResults.PriceText | src/pages/SearchResultsPage.jsx:92-98 | definition (no contract): both bounds, a lower bound only, or an upper bound only |
| SearchResults.PriceTextMentions | src/pages/SearchResultsPage.jsx:92-98 | the price part names each set bound and ends in FCFA |
| SearchResults.ConditionText | src/pages/SearchResultsPage.jsx:100 | the condition keeps its length |
| SearchResults.ConditionTextFirstOnly | src/pages/SearchResultsPage.jsx:100 | only the first underscore becomes a space |
| SearchResults.ConditionTextPlain | src/pages/SearchResultsPage.jsx:100 | a condition without an underscore is shown as is |
| SearchResults.SummaryParts | src/pages/SearchResultsPage.jsx:88-104 | no parts iff no filter; no empty part; the quoted query first and the location last when set |
| SearchResults.SearchSummary | src/pages/SearchResultsPage.jsx:88-104 | the fallback text without filters, a non-empty text otherwise |
| SearchResults.SummaryIsFallback | src/pages/SearchResultsPage.jsx:103 | the fallback text appears iff no filter is set or the only part reads like it |
| SearchResults.CategoryNamedLikeFallback | src/pages/SearchResultsPage.jsx:103 | a category named "Toutes les annonces" gives the fallback text with a filter set |
| SearchResults.SummaryLeadsWithQuery | src/pages/SearchResultsPage.jsx:88-104 | with a keyword the summary starts with it in quotes |

## Left out

- The Supabase calls: queries, inserts, updates, deletes, storage uploads and authentication. Their results are inputs (`uploads`, `insertOk`, `updateOk`, `deleteOk`, `Response`), and their queries' filters run on the server.
- `Date.now()` is the `now` parameter of the cache operations and of `timeAgo`.
- The cache's `setInterval` cleanup timer: `Cleanup` is the operation it calls.
- The messages page's realtime channel wiring, the typing indicator, the last-message map and the notification sound. The one-off load of unread counts is `Inbox.CountsLoaded`, with each fetched count an input; the sequential awaits between its steps are not modelled.
- Toasts, navigation other than the route returned by the search handlers, and rendering.
- `parseFloat`: the price field carries the number it reads (`PriceInput.parsed`, `None` for NaN).
- `URL.createObjectURL`: a `preview` function parameter. `URL.revokeObjectURL` has no observable effect on the modelled state.
- The locale date label of `groupMessagesByDate`: a `dayOf` function parameter.
- Cache.GenerateKey: does not model three details of `JSON.stringify`: its escaping of names and values, its placing of integer-like names first, and its dropping of parameters whose value is `undefined`.
- Cache.Below: compares names by code point, whereas `sort` compares UTF-16 code units. The two orders differ when a character above U+FFFF meets one in U+E000-U+FFFF.
- Cache.CacheManager.GetStats: lists the entries in no stated order. The source lists them in the Map's insertion order, where a key that is set again keeps its first place.
- Strings are sequences of characters: UTF-16 lengths, case mapping outside Basic Latin and Latin-1, and percent-encoding of search parameters are not modelled.
- Text.UpperChar: leaves three Latin-1 letters unchanged that `toUpperCase` maps elsewhere: sharp s (U+00DF) becomes "SS", y with diaeresis (U+00FF) becomes U+0178, and the micro sign (U+00B5) becomes U+039C. So `CategoryDetail.Capitalize` and `CategoryDetail.CategoryName` differ from the source for a slug word that starts with one of them.
- Plain state setters have no method of their own; callers write the fields directly. These are the form `onChange` handlers of both search modals, the publish page's `handleInputChange`, and its subcategory, location and currency setters.
- Cache.Lookup: a stored `null` value is a hit here (`Some`), whereas `get` returns `null` for it just as for a miss.
- Publish.UploadedUrls: `Promise.all` runs the uploads in parallel; the model takes one result per file, in file order, and does not model their interleaving.
- Pagination.Feed.Fetch: a response is either an error or rows with a count; a response with neither is not modelled.
- Messages.Inbox.ConversationsLoaded: the list is either an error or rows; a response with neither, which the source reads as an empty list, is not modelled.
- SearchModal.SearchForm.Search: it navigates to /recherche, whose page (src/pages/SearchPage.jsx:10-11,38) reads `q`, `city` and `date`; `SearchReadBack` states what those reads return, and that page itself is not modelled.
- Register.Submit: the account request is the `SignUp` outcome; its result and the redirect are not modelled.

## Findings

| source | as written | input that shows it | evidently intended | confidence | as-written member | corrected member |
|---|---|---|---|---|---|---|
| src/pages/PublishPage.jsx:346 | "Publier une autre annonce" clears the files but not `filePreviewUrls`, so previews and files fall out of step | publish with one photo, click the button, add one new photo: the first preview shown is the old photo's and the new one is second | the previews are cleared with the files | not executed | Publish.ResetPhotosAsWritten, Publish.ResetAsWrittenShowsStalePreview | Publish.ResetPhotos, used by Publish.PublishWizard.PublishAnother |
