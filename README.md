# ramen-map in Dafny

A model of the decision logic of ramen-map, a small web page that draws a
random food, restores or sets the user's location, and lists nearby
restaurants. The model covers two components.

- **The restaurant list** (`app/components/RestaurantList.tsx`):
  - the `sortedPlaces` memo, which orders places by distance from the user;
  - the expand/collapse state, which keeps one expanded place, a cache of
    detail records and one shared loading flag;
  - the `getDetails` callback, which sorts reviews with `zh`/`zh-TW` first
    and caches the record;
  - the open/closed badge, a three-tier fallback;
  - the expanded panel, which shows loading, details or an error.
- **The page** (`app/page.tsx`):
  - the random selector, an interval that draws 11 foods and commits the
    last one;
  - `updateLocation` with its default address and its cookie write;
  - the cookie restore on mount;
  - the three ways of setting a location: a map click with reverse
    geocoding, an autocomplete choice, and the device's position.

Files:

- `wrappers.dfy`: `Option` and JavaScript truthiness of an optional string.
- `places.dfy`: the Places records that the list reads.
- `place_order.dfy`: `sortedPlaces`, written as a stable insertion sort on a
  distance key. The distance formula is a parameter.
- `review_order.dfy`: the review comparator. Also the in-place array
  insertion sort, proved equal to the stable partition `ZhFirst`.
- `open_status.dfy`: the badge's fallback, proved equal to an ordered list
  of fallible sources.
- `detail_loader.dfy`: the list's state as transitions on a value,
  including the callbacks still to run. Also the class `RestaurantList`,
  whose methods update fields and are tied to those transitions.
- `home_state.dfy`: the page's state as transitions on a value, with the
  lemmas about counting, restoring and addressing.
- `home_page.dfy`: the class `Home`, whose methods update fields and are
  tied to the `home_state.dfy` transitions.

Three behaviours of the code are worth knowing, and the model keeps each as
the code has it.

- **Repeated requests.** A failed `getDetails` request caches nothing
  (`app/components/RestaurantList.tsx:63-75`), so expanding that place
  again sends another request (`FailedFetchRetries`).
- **Order of equal distances.** Places at the same distance keep their
  input order, because ECMA-262 has required `Array.prototype.sort` to be
  stable since its 2019 edition.
- **Interval on teardown.** No effect cleanup clears the selector's
  interval; it stops only after its 11th tick.

## Model

| member | source | states |
|---|---|---|
| PlaceOrder.Rank | app/components/RestaurantList.tsx:35-43 | the `map` step yields one ranked entry per place |
| PlaceOrder.SortedPlaces | app/components/RestaurantList.tsx:33-44 | without a user location the memo returns `places` itself, and only then; with one it returns one ranked entry per place |
| PlaceOrder.SortByDistanceCorrect | app/components/RestaurantList.tsx:44 | the sort is a permutation, non-decreasing by distance, with each distance's entries in input order |
| PlaceOrder.InsertKeepsTies | app/components/RestaurantList.tsx:44 | an inserted entry goes ahead of every entry at its own distance, which makes the sort stable |
| PlaceOrder.StableOrderIsUnique | app/components/RestaurantList.tsx:44 | two lists that are both ordered by distance and agree on the order within every distance are equal |
| PlaceOrder.SortedPlacesIsTheStableSort | app/components/RestaurantList.tsx:31-45 | any ordered list that keeps ties in input order is exactly the memo's list, whichever stable sort the engine runs |
| PlaceOrder.RankAttachesDistances | app/components/RestaurantList.tsx:35-43 | ranking keeps input order; a place without two truthy coordinates (so a latitude or longitude of 0 counts as missing) gets distance 0; other places get the metric |
| PlaceOrder.SortedPlacesSpec | app/components/RestaurantList.tsx:31-45 | with no user location the list is returned unchanged; with one, the result is a permutation of the ranked places, ordered, with stable ties |
| ReviewOrder.CompareReviews | app/components/RestaurantList.tsx:66-72 | negative exactly when only the first review is `zh`/`zh-TW`; positive exactly when only the second is; zero within a group |
| ReviewOrder.FiltersSeparate | app/components/RestaurantList.tsx:67-68 | the `zh`/`zh-TW` filter keeps only such reviews, the other filter keeps only the rest, and together they keep every review with its multiplicity |
| ReviewOrder.ZhFirstPermutes | app/components/RestaurantList.tsx:66-72 | reordering is a permutation of the reviews |
| ReviewOrder.ZhFirstOrdered | app/components/RestaurantList.tsx:66-72 | after reordering, no pair is out of order under the comparator |
| ReviewOrder.ZhFirstStable | app/components/RestaurantList.tsx:66-72 | reordering keeps the relative order inside each group |
| ReviewOrder.ZhFirstIdempotent | app/components/RestaurantList.tsx:66-72 | sorting reordered reviews again changes nothing |
| ReviewOrder.InsertReview | app/components/RestaurantList.tsx:66-72 | one insertion pass moves a `zh` review ahead of the non-`zh` block and leaves any other review in place |
| ReviewOrder.SortReviews | app/components/RestaurantList.tsx:65-72 | sorting the array in place leaves it equal to the stable partition of its old contents |
| OpenStatus.StatusText | app/components/RestaurantList.tsx:173-179 | the text is 營業中 exactly for open, 休息中 exactly for closed and 營業時間未知 exactly for unknown, so the badge tells the three states apart |
| OpenStatus.ResolveFollowsTiers | app/components/RestaurantList.tsx:136-171 | the badge's code equals the first-defined fallback over its three tiers |
| OpenStatus.FirstDefinedPicksFirst | app/components/RestaurantList.tsx:144-171 | a defined tier wins when every earlier tier is undefined |
| OpenStatus.FirstDefinedNoneAnswers | app/components/RestaurantList.tsx:139-140 | with no tier answering, the state is unknown |
| OpenStatus.OpenStatusPrecedence | app/components/RestaurantList.tsx:139-179 | the detail record's `isOpen()`, then the list record's `isOpen()` (a throw ignored), then `open_now`, then unknown; a throw from the detail record's `isOpen()` aborts the render |
| OpenStatus.ThrowingIsOpenFallsBackToOpenNow | app/components/RestaurantList.tsx:154-170 | a list record whose `isOpen()` throws and whose `open_now` is true shows 營業中 |
| DetailLoader.ClickSpec | app/components/RestaurantList.tsx:47-56 | a click on the expanded place collapses it and changes nothing else; a click on another place expands only it, keeps the cache, and starts a request and sets the flag exactly when it is uncached, keeping every other outstanding request |
| DetailLoader.ArriveSpec | app/components/RestaurantList.tsx:61-74 | the callback clears the flag; it caches the reordered record under its id exactly when the status is OK and a record came back; no key other than its id is added, a failed reply leaves the cache as it was, the stored record keeps the reply's phone, website and hours, and its reviews are the stable `zh`-first reordering |
| DetailLoader.CacheOnlyGrows | app/components/RestaurantList.tsx:55-74 | no sequence of clicks and callbacks drops a cached key |
| DetailLoader.StepKeepsValid | app/components/RestaurantList.tsx:47-75 | every event keeps the invariant: the flag is set only while a request is outstanding, and cached reviews are in order |
| DetailLoader.RunKeepsValid | app/components/RestaurantList.tsx:47-78 | the invariant holds after any sequence of events |
| DetailLoader.ReachableStatesValid | app/components/RestaurantList.tsx:27-29 | every state reachable from mount satisfies the invariant |
| DetailLoader.PanelAfterClick | app/components/RestaurantList.tsx:196-200 | right after a click expands a place, its panel shows the cached details, else the loading text |
| DetailLoader.PanelAfterReply | app/components/RestaurantList.tsx:196-266 | after its own callback, the expanded place shows the reordered details on success, and the error text on failure when nothing was cached |
| DetailLoader.ToggleTwice | app/components/RestaurantList.tsx:47-56 | two clicks on a collapsed place collapse it again, keep the cache and start at most one request |
| DetailLoader.FailedFetchRetries | app/components/RestaurantList.tsx:55-74 | a failed request caches nothing, so expanding the place again sends a second request |
| DetailLoader.SharedFlagShowsErrorEarly | app/components/RestaurantList.tsx:196-266 | because the loading flag is shared, one place's reply can show the error text under another place whose request is still outstanding |
| DetailLoader.SortedReviews | app/components/RestaurantList.tsx:65-72 | sorting the received reviews yields their stable partition |
| DetailLoader.RestaurantList.constructor | app/components/RestaurantList.tsx:27-29 | on mount nothing is expanded, cached or loading, and the invariant holds |
| DetailLoader.RestaurantList.HandlePlaceClick | app/components/RestaurantList.tsx:47-58 | the fields move as the click transition says, and a request starts exactly when the place is not expanded and not cached; the invariant is kept |
| DetailLoader.RestaurantList.OnDetailsArrived | app/components/RestaurantList.tsx:61-75 | the fields move as the callback transition says, with the reviews sorted through an array; the invariant is kept |
| DetailLoader.RestaurantList.ExpandedPanel | app/components/RestaurantList.tsx:196-266 | a panel shows only under the expanded card; it shows loading only while the flag is set and nothing is cached |
| HomeState.Mounted | app/page.tsx:26-33 | the first render has no location, a closed modal, no draw running (not searching, interval stopped) and no food displayed or selected |
| HomeState.RandomIndex | app/page.tsx:62-63 | `Math.floor(Math.random() * n)` is a valid index into a non-empty catalog |
| HomeState.NewLocation | app/page.tsx:75 | the address is never empty, and a non-empty given address is kept |
| HomeState.PressRandomSpec | app/page.tsx:53-58 | a click during a draw does nothing; without a location the modal opens and no draw starts; with one the draw starts from count 0 and no food changes |
| HomeState.TicksFrom | app/page.tsx:61-71 | while fewer than 11 ticks have fired, each tick is displayed and nothing is selected; the 11th is displayed and selected, searching ends and the interval stops; later draws do nothing |
| HomeState.ElevenDraws | app/page.tsx:58-71 | a started draw runs exactly 11 ticks, and only the 11th sets `selectedFood`, to the food it displays |
| HomeState.TransitionsKeepValid | app/page.tsx:53-125 | press, tick, restore, update, map click, autocomplete choice and current position each keep `isSearching` in step with the interval and the count at most 10 |
| HomeState.UpdateLocationSpec | app/page.tsx:74-77 | the whole location is replaced; the address falls back to 地圖選定位置 when missing or empty; the cookie holds the new location; nothing else changes |
| HomeState.RestoreSavedSpec | app/page.tsx:39-51 | no cookie or a parse failure opens the modal; a parse success sets the location |
| HomeState.StartupRestore | app/page.tsx:39-51 | from mount: no cookie or a parse failure opens the modal and leaves no location; a parse success sets the location and keeps the modal closed |
| HomeState.PersistedLocationRestores | app/page.tsx:39-77 | a location written by `updateLocation` is restored on the next mount when the JSON encoding reads back |
| HomeState.MapClickAddress | app/page.tsx:98-111 | a map click takes the first geocoder result's address when the status is OK and there is a result, else the default address; a click without a position does nothing |
| HomeState.PlaceChangedAddress | app/page.tsx:85-93 | an autocomplete choice is addressed by its formatted address, else its name, else the default |
| HomeState.UseCurrentLocationSpec | app/page.tsx:115-125 | the device's position becomes the location with the address 目前位置 and is written to the cookie; without an answer nothing changes |
| HomePage.Home.constructor | app/page.tsx:26-33 | the page mounts valid, in the mount state, with the browser's cookie |
| HomePage.Home.LoadSavedLocation | app/page.tsx:39-51 | the fields move as the restore transition says |
| HomePage.Home.PressRandomButton | app/page.tsx:53-61 | the fields move as the button transition says |
| HomePage.Home.Tick | app/page.tsx:61-70 | one interval firing draws an in-range index and moves the fields as the tick transition says |
| HomePage.Home.UpdateLocation | app/page.tsx:74-77 | the fields move as `updateLocation` says |
| HomePage.Home.HandleMapClick | app/page.tsx:98-113 | the fields move as the map-click transition says |
| HomePage.Home.HandlePlaceChanged | app/page.tsx:85-96 | the fields move as the autocomplete transition says |
| HomePage.Home.OpenLocationModal | app/page.tsx:158-164 | the header's location button opens the modal and changes nothing else |
| HomePage.Home.CloseLocationModal | app/page.tsx:209-213 | the close button (and the confirm button at app/page.tsx:297-304) closes the modal and changes nothing else |
| HomePage.Home.HandleUseCurrentLocation | app/page.tsx:115-125 | the fields move as the current-position transition says, with the address 目前位置 |

## Left out

- **Distance formula:** the Haversine formula (`app/components/RestaurantList.tsx:11-24`) is a function parameter. The m/km label (125-130) is not modelled, because both are floating-point arithmetic.
- **Coordinates:** these are `real`. NaN, infinities and rounding are not modelled.
- **Empty `places`:** the `!places` guard at `app/components/RestaurantList.tsx:32` is not modelled, because the list is always an array here.
- **Rendering:** the welcome and empty-list messages, photos, phone, website, the first three reviews, the Google Maps button and all styling are not modelled.
- **External services:** the Places, Geocoder and Autocomplete services and `navigator.geolocation` are calls into code outside this model. Their answers are method parameters. A geolocation failure, which the code does not handle, is the same as no answer.
- **Separate files:** `app/components/Map.tsx` is not part of this model; its search result is the `places` input. `app/data/foodOptions.ts` is not part of this model; it is the `catalog` parameter. `app/layout.tsx` is not part of this model.
- **Randomness and timing:** `Math.random`, `setInterval` and the 100 ms period are left out. Each firing is a `Tick` call, and the random value is a parameter.
- **Teardown:** the interval is not cleared on unmount, in the model or in the code.
- **Cookie and JSON:** the `js-cookie` store is an `Option<string>` field. The 365-day expiry is not modelled. `JSON.stringify` and `JSON.parse` are function parameters. A parsed value other than a location or `null` is not modelled.
- **Map and radius:** `mapRef.current.panTo` only moves the map and is not modelled. The search radius selector feeds `Map.tsx` only and is not modelled.
- **React scheduling:** state updates take effect one event at a time. React's batching of updates and re-renders are not modelled.
- DetailLoader.RestaurantList.OnDetailsArrived: the reviews array that the callback sorts in place is copied into a fresh array, sorted, and stored. Aliasing between that array and the service's own record is not captured.
- HomePage.Home.HandleMapClick: the click and its geocoder callback form one step. Events that arrive between them are not modelled.
- HomePage.Home.CloseLocationModal: the confirm button is shown only when a location is set. That rendering condition is not modelled; the close button has no such condition.
