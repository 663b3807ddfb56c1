# UnsplashBrowser core, modelled in Dafny

UnsplashBrowser is an iOS client for the Unsplash photo search API. This
project models the parts of it that decide behaviour, and proves properties
about them:

- **Search screen state** (`SearchPhotosViewModel`). `search(query:)` starts
  a new session from page 1. `loadMore()` fetches the next page, keeps the
  photos already shown and drops any photo whose id was loaded before. On a
  failed page it rolls the page counter back. `resetSearchState()` and
  `lastRowIndex(_:)` are modelled too. The two asynchronous
  operations are split into the event before their `await` and the event
  after it (`BeginSearch`/`FinishSearch`, `LoadMoreStart`/`LoadMoreFinish`),
  so interleavings can be written down. The API's answer is a parameter of
  the second event. Each operation also has a sequential method that
  composes both events (`Search`, `LoadMore`). A ghost log records every
  page request that is issued.
- **Image loader** (`ImageLoaderImpl`). It holds a cache from URL to image
  and a table of fetches in flight. A request is answered from the cache,
  or joins the fetch already running for the same URL, or starts a new
  fetch. `Complete` validates the response (a transport error, a non-HTTP
  response, a status outside 200–299, or undecodable data), caches only
  successes and always clears the in-flight entry. Ghost logs count the
  fetches started and finished per URL. The class invariant proves that at
  most one fetch per URL is ever in flight.
- **Favourite authors** (`FavoriteAuthorsStore`, `FavoriteAuthorsViewModel`).
  Toggling an author removes the first entry with that id, or appends the
  author if there is none. The list is written back to a persistent
  key-value cell that a later store reads. The view model's
  `removeFavorite` also clears the selection when it pointed at the
  removed author.
- **API error mapping** (`UnsplashAPIError`). It maps status codes to cases
  and back, and gives each case its user-facing description.
- **Search endpoint** (`APIEndPoint.searchPhotos`). It builds the path, the
  query items in order (only the optional ones that are present) and the
  `Authorization` header.
- **`Color(hex:)`**. It trims the string, reads the leading hex digits, and
  turns 3-, 6- or 8-digit values into alpha, red, green and blue components
  in 0–255. Any other length gives opaque black.

Behaviour of the code worth knowing, which the model reproduces:

- Nothing tags a search session. A `loadMore` page whose answer arrives
  after a new search has started is still appended to the new session's
  photos (`LateResultIsApplied`). A failed `loadMore` page that lands
  while a new search waits for its first page rolls the new session's page
  back from 1 to 0 and clears its loading flag (`StaleFailureRollsBackNewSearch`).
  Because that flag is cleared while the id set is still empty, a further
  `loadMore` may run and show a photo twice until the new search's page
  replaces the list (`StaleFailureAllowsDuplicate`).
- A failed search empties the photo list rather than keeping it.
- `search("")` only empties the photo list and stops. It does not reset the
  page, the query or the set of loaded ids.
- The page size is the constant 30.
- The image cache has only the platform cache's count and cost limits. It
  has no eviction order of its own, so eviction is one abstract event
  (`Evict`).

Integers (`Int`, `UInt64`) are modelled as Dafny's unbounded `int`/`nat`.
Page numbers, status codes and the hex values that a colour is built from
(at most 8 digits) fit the machine width. The scanned hex value is exact
for any number of digits (see `HexColor.ScanHex` under "## Left out").

## Model

| member | source | states |
|---|---|---|
| UnsplashAPIErrors.FromStatusCode | UnsplashBrowser/Core/Networking/UnsplashAPIError.swift:16-35 | 400, 401, 403, 404, 429, 500 and 503 each map to their own case, and exactly the other codes map to `unknown(code)`; the result's status code is the input code |
| UnsplashAPIErrors.StatusCode | UnsplashBrowser/Core/Networking/UnsplashAPIError.swift:37-56 | the code of every case is the one `FromStatusCode` maps back to that case |
| UnsplashAPIErrors.StatusCodeRoundTrip | UnsplashBrowser/Core/Networking/UnsplashAPIError.swift:16-56 | mapping an error to its status code and back gives the same error exactly when it is not an `unknown` error carrying one of the seven named codes |
| UnsplashAPIErrors.ErrorDescription | UnsplashBrowser/Core/Networking/UnsplashAPIError.swift:58-75 | every case has a description; `unknown(c)` reads "HTTP Error: Received status code " followed by c in decimal; both server-error cases share one text |
| UnsplashAPIErrors.ServerErrorsShareDescription | UnsplashBrowser/Core/Networking/UnsplashAPIError.swift:49-71 | 500 and 503 are different errors with different codes but the same description |
| UnsplashAPIErrors.UnknownDescriptionCarriesCode | UnsplashBrowser/Core/Networking/UnsplashAPIError.swift:72-73 | the status code can be read back out of an unknown error's description |
| UnsplashAPIErrors.UnknownDescriptionsDistinct | UnsplashBrowser/Core/Networking/UnsplashAPIError.swift:72-73 | two unknown errors with different codes have different descriptions |
| Decimal.IntToString | UnsplashBrowser/Core/Networking/UnsplashAPIError.swift:73 | the decimal text of an integer is non-empty and starts with '-' exactly when the integer is negative |
| Decimal.IntToStringRoundTrip | UnsplashBrowser/Core/Networking/APIEndpoint.swift:51-52 | parsing the decimal text of any integer gives that integer back |
| Decimal.IntToStringInjective | UnsplashBrowser/Core/Networking/APIEndpoint.swift:51-52 | different integers render as different texts |
| APIEndpoint.SearchPhotos | UnsplashBrowser/Core/Networking/APIEndpoint.swift:39-85 | path is "search/photos" (no leading slash), method GET, header `Authorization: Client-ID <key>`; items are query, page and per_page in that order, then exactly the present optional parameters in source order |
| APIEndpoint.AppendIfPresent | UnsplashBrowser/Core/Networking/APIEndpoint.swift:55-73 | an optional parameter adds one item, with its name and value, exactly when it has a value; earlier items are kept |
| APIEndpoint.DefaultSearch | UnsplashBrowser/Core/Networking/APIEndpoint.swift:41-42 | with only a query, the request asks for page 1 with 10 per page and carries exactly three items |
| APIEndpoint.PresentItemsLength | UnsplashBrowser/Core/Networking/APIEndpoint.swift:55-73 | one item per present optional parameter |
| APIEndpoint.PresentItemsMembership | UnsplashBrowser/Core/Networking/APIEndpoint.swift:55-73 | an optional parameter's name is among the items exactly when it was given a value |
| APIEndpoint.PresentItemsHaveValues | UnsplashBrowser/Core/Networking/APIEndpoint.swift:55-73 | every optional item carries a value, and it is a parameter passed in under that name with that value |
| APIEndpoint.PresentItemsOrder | UnsplashBrowser/Core/Networking/APIEndpoint.swift:55-73 | present parameters keep their relative order among the items |
| HexColor.TrimLeading | UnsplashBrowser/Extensions/Color.swift:13 | the result is a suffix of the input; the dropped characters are not alphanumeric and the first kept one is |
| HexColor.TrimTrailing | UnsplashBrowser/Extensions/Color.swift:13 | the result is a prefix of the input; the dropped characters are not alphanumeric and the last kept one is |
| HexColor.Trim | UnsplashBrowser/Extensions/Color.swift:13 | the trimmed string is no longer than the input and is empty or starts and ends with an alphanumeric character |
| HexColor.TrimExact | UnsplashBrowser/Extensions/Color.swift:13 | non-alphanumeric padding on both sides of an alphanumeric core is removed exactly |
| HexColor.HashPrefixIgnored | UnsplashBrowser/Extensions/Color.swift:13 | "#rrggbb" and "rrggbb" give the same colour |
| HexColor.LeadingHexCount | UnsplashBrowser/Extensions/Color.swift:15 | the count covers a run of hex digits at the start and stops at the first non-hex character or the end |
| HexColor.HexValue | UnsplashBrowser/Extensions/Color.swift:15 | the value of n hex digits is below 16 to the n, so 3, 6 and 8 digits fit 12, 24 and 32 bits |
| HexColor.ScanHex | UnsplashBrowser/Extensions/Color.swift:14-15 | the scanned value is below 16 to the number of characters |
| HexColor.Components | UnsplashBrowser/Extensions/Color.swift:16-25 | every component is in 0–255; 3- and 6-digit inputs are opaque; any trimmed length other than 3, 6 or 8 gives opaque black |
| HexColor.TrimmedComponents | UnsplashBrowser/Extensions/Color.swift:14-25 | the length switch on the trimmed text: every component is in 0–255, 3 and 6 characters give alpha 255, any other length but 8 gives opaque black |
| HexColor.ShortRgb | UnsplashBrowser/Extensions/Color.swift:17-18 | a 12-bit value gives alpha 255 and three components that each fit a byte |
| HexColor.LongRgb | UnsplashBrowser/Extensions/Color.swift:19-20 | a 24-bit value gives alpha 255 and three components that each fit a byte |
| HexColor.LongArgb | UnsplashBrowser/Extensions/Color.swift:21-22 | a 32-bit value gives four components that each fit a byte |
| HexColor.ThreeDigitColor | UnsplashBrowser/Extensions/Color.swift:17-18 | "rgb" means each digit doubled: component = digit × 17, alpha 255 |
| HexColor.SixDigitColor | UnsplashBrowser/Extensions/Color.swift:19-20 | "rrggbb" gives the three byte values of its digit pairs, alpha 255 |
| HexColor.EightDigitColor | UnsplashBrowser/Extensions/Color.swift:21-22 | "aarrggbb" gives the four byte values of its digit pairs, alpha first |
| HexColor.FourBytes | UnsplashBrowser/Extensions/Color.swift:21-22 | the shifts and masks of the eight-digit case recover the four bytes the value was built from |
| HexColor.ThreeBytes | UnsplashBrowser/Extensions/Color.swift:19-20 | the shifts and masks of the six-digit case recover the three bytes the value was built from |
| FavoriteAuthors.Decode | UnsplashBrowser/Core/Favorites/FavoriteAuthorsStore.swift:24-36 | missing or undecodable stored data reads as the empty list |
| FavoriteAuthors.ContainsId | UnsplashBrowser/Core/Favorites/FavoriteAuthorsStore.swift:60-62 | true exactly when some author in the list has the id |
| FavoriteAuthors.FirstIndex | UnsplashBrowser/Core/Favorites/FavoriteAuthorsStore.swift:52 | the index of the first author with the id, and none exactly when no author has it |
| FavoriteAuthors.Defaults.constructor | UnsplashBrowser/Core/Favorites/FavoriteAuthorsStore.swift:18-22 | the persisted cell holds the data it was created with |
| FavoriteAuthors.Toggled | UnsplashBrowser/Core/Favorites/FavoriteAuthorsStore.swift:51-56 | the list shrinks by one when an entry has the author's id and grows by one otherwise |
| FavoriteAuthors.FavoriteAuthorsStore.Favorites | UnsplashBrowser/Core/Favorites/FavoriteAuthorsStore.swift:24-36 | the getter yields the stored list when the data decodes, and the empty list when nothing is stored or it does not decode |
| FavoriteAuthors.FavoriteAuthorsStore.constructor | UnsplashBrowser/Core/Favorites/FavoriteAuthorsStore.swift:18 | a new store reads what the defaults hold |
| FavoriteAuthors.FavoriteAuthorsStore.SetFavorites | UnsplashBrowser/Core/Favorites/FavoriteAuthorsStore.swift:37-45 | writing the list stores it encoded, in the store and in the defaults, so it reads back unchanged |
| FavoriteAuthors.FavoriteAuthorsStore.ToggleFavorite | UnsplashBrowser/Core/Favorites/FavoriteAuthorsStore.swift:50-58 | the new list is the old one toggled at the author, and it is persisted |
| FavoriteAuthors.FavoriteAuthorsStore.IsFavorite | UnsplashBrowser/Core/Favorites/FavoriteAuthorsStore.swift:60-62 | true exactly when an author with the id is in the stored list |
| FavoriteAuthors.ToggleAbsentAppends | UnsplashBrowser/Core/Favorites/FavoriteAuthorsStore.swift:55-56 | toggling an author whose id is absent appends it at the end |
| FavoriteAuthors.TogglePresentRemovesFirst | UnsplashBrowser/Core/Favorites/FavoriteAuthorsStore.swift:52-53 | toggling an author whose id is present removes exactly the first entry with that id |
| FavoriteAuthors.ToggleTwiceRestores | UnsplashBrowser/Core/Favorites/FavoriteAuthorsStore.swift:50-58 | toggling an author whose id is absent twice restores the list |
| FavoriteAuthors.TogglePreservesDistinct | UnsplashBrowser/Core/Favorites/FavoriteAuthorsStore.swift:50-58 | toggling keeps the ids in the list distinct |
| FavoriteAuthors.ToggleKeepsOthers | UnsplashBrowser/Core/Favorites/FavoriteAuthorsStore.swift:50-58 | toggling one author does not change whether any other id is a favourite |
| FavoriteAuthors.ReloadSeesEarlierWrites | UnsplashBrowserTests/FavoriteAuthorsStoreTests.swift:70-103 | a second store on the same defaults sees the authors the first one added, in order |
| FavoriteAuthorsViewModels.FavoriteAuthorsViewModel.constructor | UnsplashBrowser/Features/Favorites/ViewModel/FavoriteAuthorsViewModel.swift:27-29 | the view model wraps the given store with nothing selected |
| FavoriteAuthorsViewModels.FavoriteAuthorsViewModel.Favorites | UnsplashBrowser/Features/Favorites/ViewModel/FavoriteAuthorsViewModel.swift:18-20 | an id appears in the list exactly when the store reports it as a favourite |
| FavoriteAuthorsViewModels.FavoriteAuthorsViewModel.IsEmpty | UnsplashBrowser/Features/Favorites/ViewModel/FavoriteAuthorsViewModel.swift:23-25 | empty exactly when the store has no favourite id |
| FavoriteAuthorsViewModels.FavoriteAuthorsViewModel.RemoveFavorite | UnsplashBrowser/Features/Favorites/ViewModel/FavoriteAuthorsViewModel.swift:33-40 | the store's list is toggled at the author; the selection is cleared if it had the author's id and is kept otherwise |
| FavoriteAuthorsViewModels.RemoveSelected | UnsplashBrowser/Features/Favorites/ViewModel/FavoriteAuthorsViewModel.swift:33-40 | removing the selected, favourited author leaves it not a favourite and nothing selected |
| ImageLoading.Validate | UnsplashBrowser/Core/ImageLoading/ImageLoaderImpl.swift:33-55 | success exactly for an HTTP 2xx response with decodable data; a transport error keeps its description; non-HTTP or non-2xx gives badServerResponse; undecodable 2xx data gives decodeFailed |
| ImageLoading.ImageLoaderImpl.constructor | UnsplashBrowser/Core/ImageLoading/ImageLoaderImpl.swift:15-19 | a new loader has an empty cache and no fetch in flight |
| ImageLoading.ImageLoaderImpl.Request | UnsplashBrowser/Core/ImageLoading/ImageLoaderImpl.swift:21-58 | a cached URL is a hit with the cached image; a URL in flight joins it and starts nothing; otherwise exactly one fetch starts and is registered |
| ImageLoading.ImageLoaderImpl.Complete | UnsplashBrowser/Core/ImageLoading/ImageLoaderImpl.swift:60-74 | the result is the validated response; only a success is cached; the URL leaves the in-flight table either way |
| ImageLoading.ImageLoaderImpl.Evict | UnsplashBrowser/Core/ImageLoading/ImageLoaderImpl.swift:9-14 | the cache may drop an entry, and nothing else changes |
| ImageLoading.ParallelRequestsShareOneFetch | UnsplashBrowserTests/ImageLoaderTests.swift:113-156 | five requests for one uncached URL before the answer start one fetch and join it four times; all receive the delivered image, one fetch is logged, and the next request is a cache hit |
| ImageLoading.SuccessIsCached | UnsplashBrowserTests/ImageLoaderTests.swift:69-111 | after a successful fetch the next request is a hit with that image |
| ImageLoading.FailureIsNotCached | UnsplashBrowserTests/ImageLoaderTests.swift:158-181 | after a failed fetch the next request starts a new fetch |
| SearchPhotos.Absorb | UnsplashBrowser/Features/Search/ViewModel/SearchPhotosViewModel.swift:140-144 | the dedup loop adds at most one photo per page photo, never shrinks the list, and never forgets a loaded id; the lemmas below pin down which photos are kept and added |
| SearchPhotos.AbsorbKeepsPrefix | UnsplashBrowser/Features/Search/ViewModel/SearchPhotosViewModel.swift:140-146 | appending a page never changes or reorders the photos already shown |
| SearchPhotos.AbsorbSeenIds | UnsplashBrowser/Features/Search/ViewModel/SearchPhotosViewModel.swift:93-97 | afterwards the set of loaded ids is the old set plus every id on the page |
| SearchPhotos.AbsorbAddedIds | UnsplashBrowser/Features/Search/ViewModel/SearchPhotosViewModel.swift:93-97 | the ids added are exactly the page's ids not loaded before |
| SearchPhotos.AbsorbPreservesInvariant | UnsplashBrowser/Features/Search/ViewModel/SearchPhotosViewModel.swift:93-97 | if the shown photos have distinct ids, all among the loaded ids, that still holds after a page is absorbed |
| SearchPhotos.AbsorbAppendsFromResponse | UnsplashBrowser/Features/Search/ViewModel/SearchPhotosViewModel.swift:140-146 | the appended photos come from the page, in page order |
| SearchPhotos.AbsorbKeepsFirstOccurrences | UnsplashBrowser/Features/Search/ViewModel/SearchPhotosViewModel.swift:140-146 | a page photo whose id was not loaded before and does not occur earlier on the page is appended |
| SearchPhotos.RepeatedPhotoDropped | UnsplashBrowser/Features/Search/ViewModel/SearchPhotosViewModel.swift:140-146 | pages [A, B] then [B, C] show [A, B, C] |
| SearchPhotos.SearchPhotosViewModel.constructor | UnsplashBrowser/Features/Search/ViewModel/SearchPhotosViewModel.swift:16-44 | the initial state: no photos, not loading, no message, empty query, page 1, more pages expected, no load task |
| SearchPhotos.SearchPhotosViewModel.LastRowIndex | UnsplashBrowser/Features/Search/ViewModel/SearchPhotosViewModel.swift:51-53 | as written the index is 0 when there are more photos than one row, else the last index; it is a valid index whenever there are photos |
| SearchPhotos.SearchPhotosViewModel.ResetSearchState | UnsplashBrowser/Features/Search/ViewModel/SearchPhotosViewModel.swift:59-68 | the load task is cancelled, the query is set, page 1, more pages expected, loading with the "Searching" message, no loaded ids |
| SearchPhotos.SearchPhotosViewModel.BeginSearch | UnsplashBrowser/Features/Search/ViewModel/SearchPhotosViewModel.swift:74-87 | an empty query only clears the photos and issues nothing; otherwise the state is reset and page 1 of the query is requested |
| SearchPhotos.SearchPhotosViewModel.FinishSearch | UnsplashBrowser/Features/Search/ViewModel/SearchPhotosViewModel.swift:89-112 | a page replaces the photos with its distinct-id photos and sets whether more pages exist and the "No photos" message; a failure clears the photos and shows the error; loading ends |
| SearchPhotos.SearchPhotosViewModel.Search | UnsplashBrowser/Features/Search/ViewModel/SearchPhotosViewModel.swift:74-113 | the whole search: page 1 of the query is the one request issued, and afterwards the loaded ids are exactly the shown photos' ids |
| SearchPhotos.SearchPhotosViewModel.CanLoadMore | UnsplashBrowser/Features/Search/ViewModel/SearchPhotosViewModel.swift:119-126 | loadMore stops while loading, after the last page, without a query or while a load task exists, and proceeds in every other state |
| SearchPhotos.SearchPhotosViewModel.LoadMoreStart | UnsplashBrowser/Features/Search/ViewModel/SearchPhotosViewModel.swift:118-137 | while loading, with no more pages, an empty query or a task running, nothing happens; otherwise the page goes up by one and exactly that page is requested |
| SearchPhotos.SearchPhotosViewModel.LoadMoreFinish | UnsplashBrowser/Features/Search/ViewModel/SearchPhotosViewModel.swift:138-154 | a page's new photos are appended behind the shown ones; a failure shows the error and rolls the page back by one; loading ends and the task is cleared |
| SearchPhotos.SearchPhotosViewModel.LoadMore | UnsplashBrowser/Features/Search/ViewModel/SearchPhotosViewModel.swift:118-157 | a request is issued exactly when the guards pass; shown photos are kept as a prefix; ids stay distinct while no search is pending; a failed page leaves the page counter where it was |
| SearchPhotos.PaginationDropsRepeats | UnsplashBrowser/Features/Search/ViewModel/SearchPhotosViewModel.swift:128-146 | searching then loading page 2 with a repeated photo shows each photo once, requests pages 1 and 2 and, on a last page, expects no more |
| SearchPhotos.FailedPageIsRetried | UnsplashBrowser/Features/Search/ViewModel/SearchPhotosViewModel.swift:147-150 | after a failed page 2 the next load asks for page 2 again |
| SearchPhotos.LateResultIsApplied | UnsplashBrowser/Features/Search/ViewModel/SearchPhotosViewModel.swift:128-156 | a page of an old query that arrives after a new search is appended to the new query's photos |
| SearchPhotos.StaleFailureRollsBackNewSearch | UnsplashBrowser/Features/Search/ViewModel/SearchPhotosViewModel.swift:147-153 | an old query's failed page that lands while a new search waits leaves the new session at page 0, not loading, showing the old error, with its search still pending |
| SearchPhotos.StaleFailureAllowsDuplicate | UnsplashBrowser/Features/Search/ViewModel/SearchPhotosViewModel.swift:119-153 | after that stale failure the guards let a new load through for the new query, and a page repeating the photo still shown appends it a second time |

## Left out

- Networking: `UnsplashAPIClientImpl` is not part of this model. That covers the URLSession call, JSON decoding of the response and the request rate limiter, which waits on the clock. The search model takes the API's answer as a parameter (`Fetched` or `Failed` with the error's description).
- Concurrency: the actors and main-actor isolation are serialised into the Begin/Finish and Request/Complete events. Cancelling a Swift task has no effect of its own. A cancelled request's answer arrives as an ordinary `Finish` event.
- `SearchPhotosViewModel.LoadMoreStart`: creating the load task and the task body raising the page are merged into one event. The gap between them is not modelled.
- The debounce of typing in the search view is not part of this model. Neither are any SwiftUI views, the web profile view or the dependency container.
- `ImageLoading.ImageLoaderImpl.Complete`: the callers that joined a fetch are not modelled as separate objects. They get the same result as `Complete` returns.
- `ImageLoading.ImageLoaderImpl.Evict`: the platform cache's count limit (1000) and cost limit (640 MB) are not modelled. Any entry may be evicted at any time.
- Image decoding: `UIImage(data:)` is a parameter. The response carries the decoded image or none.
- Persistence: UserDefaults and JSON coding are modelled as a single cell holding empty, encoded or undecodable data. A failure to encode the list is not modelled, because it cannot happen for these plain records. The storage key is implicit in the cell. The getter's and setter's failure logs (`print`) are left out, because they only write to the console.
- `HexColor.Components`: the conversion to Double (division by 255) is left out. The model gives the integer components.
- `HexColor.Trim`: trimming uses ASCII letters and digits as the alphanumeric set, not Unicode's. The length test counts characters, not grapheme clusters.
- `HexColor.ScanHex`: the scanner's acceptance of a leading "0x" and of leading whitespace inside the trimmed string is not modelled. A run of more than 16 hex digits overflows the scanner's `UInt64`, but here its value is exact. Such runs occur only in trimmed lengths other than 3, 6 or 8, which give opaque black whatever the value.
- Photo records keep only some of their fields: id, width, height and likes, and only the id takes part in the logic. The nested user and URL records of a photo are not part of this model. The favourite-author record is complete: id, username, name, userImage and url.
- The API access key comes from a secrets file. It is a parameter of `APIEndpoint.SearchPhotos`.
