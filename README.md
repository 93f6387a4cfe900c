# Alpaago client: user table and weather lookup

This Dafny project models the two pieces of sequential logic in the Alpaago React client.

**The user-table page** (`src/components/User.tsx`) holds four pieces of state:
- the loaded active records (`users`);
- the rows on screen (`filteredUsers`);
- the direction of the next column sort (`sortOrder`);
- the text of the search box (`searchTerm`).

Its handlers move that state from one value to the next: load, add, delete, toggle status, column sort, text search and one-day date filter. The page is the class `UserTable.UsersPage`. Each handler is a method that states the page's whole new state through functions on sequences. Those functions carry the source's promises, which are proved as postconditions and lemmas:
- the view is an order-preserving sub-collection of the users;
- only the clicked id changes;
- a failed remote call changes nothing;
- a sort is a permutation in order;
- an empty search shows everyone.

The class invariant `Valid()` says the view holds only loaded records, each at most as often as it was loaded. Every handler preserves it.

**The weather page** (`src/components/Home.tsx`) has three parts:
- a fixed table of eight condition categories;
- the request handler `fetchWeather`, which runs over `loading`, `apiData` and `showWeather`;
- the render gate that decides between the spinner, nothing, and the result panel.

The page is the class `Weather.WeatherPage`. The request is split at its first `await`: `StartFetch` runs the input check and sets `loading`, and `FinishFetch` applies the outcome and runs the `finally`. What a request leaves behind is the function `Weather.Settled`, from the state before the request and its outcome. The page keeps the category table in a constant field `table`, which its constructor sets to `WeatherTypes`. The selection and `Settled` are stated over a given table, and the lemmas about the eight categories instantiate it with `WeatherTypes`. The outcome is that the request threw, or that it responded with an `ok` flag and a parsed body.

Shared pieces:
- `Seqs` holds `filter`, `map` and reversal over sequences, with the facts the proofs use, including that `filter` keeps order.
- `Text` holds ASCII `toLowerCase`, `includes`, and JavaScript's `<` on strings.
- `Wrappers` holds `Option`.

Remote calls (Firestore's `getDocs`, `addDoc`, `deleteDoc`, `updateDoc`, and `fetch` with `response.json()`) are parameters: the data returned, or that the call threw. The locale-dependent parts of `Date` are a `Locale` value passed to the handlers that use them. That value holds four functions: the instant `new Date` reads from the date box, the display string of a timestamp, local midnight, and the same time one day later. `UserTable.FixedZone` builds a `Locale` for a time zone at a fixed offset from UTC, and the lemmas beside it work out which local day the date filter shows there.

Some behaviour of the code that the model makes explicit:
- **Stale header after "Not Found".** A non-OK weather response leaves `apiData` as it was. The panel then shows "Not Found" under the place of the previous successful lookup (`Weather.NotFoundShown`).
- **Missing `weather` list.** An OK response whose body has no `weather` list sets `apiData`, then throws on `data.weather[0]`. The category list stays as it was. Over an empty table the filter's callback never runs, so nothing throws and the list becomes empty.
- **Date filter off by one day west of UTC.** See "## Findings".
- **Search term survives a reload.** The add-user reload and the load on mount reset `filteredUsers` to all of `users` but keep `searchTerm`.

## Model

| member | source | states |
|---|---|---|
| Seqs.Filter | src/components/User.tsx:25-27 | `Array.prototype.filter`: the result holds exactly the elements of the input that pass the test, and is a sub-collection of the input |
| Seqs.FilterReadsPositions | src/components/User.tsx:60-62 | filtering keeps order (1): element `k` of the result is the input's element at the `k`-th kept position |
| Seqs.PositionsIncreasing | src/components/User.tsx:60-62 | filtering keeps order (2): the kept positions strictly increase |
| Seqs.PositionsCoverMatches | src/components/User.tsx:111-116 | filtering drops nothing it should keep: every position whose element passes the test is among those positions |
| Seqs.FilterMonotone | src/components/User.tsx:60-62 | filtering a sub-collection of a sequence gives a sub-collection of the filtered sequence |
| Seqs.FilterAll | src/components/User.tsx:111-116 | a filter every element passes returns the input unchanged |
| Seqs.FilterRefines | src/components/User.tsx:111-116 | filtering by a stricter test equals filtering the looser result again |
| Seqs.FilterNone | src/components/Home.tsx:64-66 | a filter no element passes returns the empty sequence |
| Seqs.FilterSingle | src/components/Home.tsx:64-66 | when exactly one position passes the test, the filter is that one element |
| Seqs.Map | src/components/User.tsx:81-89 | `Array.prototype.map`: same length, element `i` of the result is the function applied to element `i` of the input |
| Seqs.MapMonotone | src/components/User.tsx:81-89 | mapping a sub-collection gives a sub-collection of the mapped sequence |
| Text.LowerChar | src/components/User.tsx:109 | `toLowerCase` on one character: upper-case ASCII letters are shifted to lower case, every other character is kept |
| Text.Lower | src/components/User.tsx:109 | `toLowerCase`: the same length, no upper-case letter left, every other character kept |
| Text.LowerIdempotent | src/components/User.tsx:109 | lower-casing an already lower-cased string changes nothing |
| Text.LowerAppend | src/components/User.tsx:109 | lower-casing distributes over concatenation |
| Text.Contains | src/components/User.tsx:113-115 | `includes`: true exactly when the term occurs at some position of the string |
| Text.ContainsEmpty | src/components/User.tsx:113 | every string includes the empty term |
| Text.ContainsTransitive | src/components/User.tsx:113-115 | an occurrence of an occurrence is an occurrence |
| Text.StrLess | src/components/User.tsx:99-101 | JavaScript `<` on strings: lexicographic by character, a proper prefix being smaller |
| Text.StrLessFirstDifference | src/components/User.tsx:99-101 | `a < b` exactly when `a` is a proper prefix of `b`, or `a` has the smaller character at the first position where they differ |
| Text.StrLessIrreflexive | src/components/User.tsx:99 | JavaScript `<` on strings never holds between a string and itself |
| Text.StrLessTransitive | src/components/User.tsx:99-101 | JavaScript `<` on strings is transitive |
| Text.StrLessTotal | src/components/User.tsx:99-101 | of two different strings, one is `<` the other |
| UserTable.ActiveOnly | src/components/User.tsx:25-27 | the load keeps exactly the fetched records whose status is "active", as a sub-collection of the fetched records |
| UserTable.WithoutId | src/components/User.tsx:60-62 | delete keeps exactly the records whose id differs from the deleted id, none with that id |
| UserTable.WithoutIdKeepsInclusion | src/components/User.tsx:60-63 | deleting from both arrays keeps the view inside the users |
| UserTable.WithoutIdIdempotent | src/components/User.tsx:60-62 | deleting the same id twice removes nothing more |
| UserTable.Toggled | src/components/User.tsx:75 | the new status is "inactive" for an active row and "active" for a row with any other status, so it is always one of the two |
| UserTable.WithStatus | src/components/User.tsx:81-89 | the status patch keeps the length, id, username and added date of every row. It sets the status of rows with the id and leaves every other row unchanged |
| UserTable.WithStatusKeepsInclusion | src/components/User.tsx:81-90 | patching both arrays alike keeps the view inside the users |
| UserTable.ToggleTwiceRestores | src/components/User.tsx:75-90 | toggling a row and then toggling it back restores the records |
| UserTable.MatchesSearch | src/components/User.tsx:112-115 | the search test: the lower-cased username, the date string or the lower-cased status includes the term. The empty term matches every record |
| UserTable.SearchResults | src/components/User.tsx:111-116 | the search keeps exactly the users whose lower-cased username, date string or lower-cased status includes the term, as a sub-collection of the users |
| UserTable.EmptySearchShowsAll | src/components/User.tsx:109-116 | an empty search box shows every loaded user, in order |
| UserTable.NarrowingSearch | src/components/User.tsx:111-116 | when the new term includes the old one, the new results are the old results searched again |
| UserTable.TypingNarrowsSearch | src/components/User.tsx:109-116 | typing more characters into the search box only narrows the view, keeping order |
| UserTable.DayStart | src/components/User.tsx:122-126 | the window's start: `setHours(0, 0, 0, 0)` on a copy of the parsed date, local midnight of its day |
| UserTable.DayEnd | src/components/User.tsx:123-130 | the window's end: one day later by `setDate`, then local midnight of that day |
| UserTable.DateResults | src/components/User.tsx:121-136 | the date filter keeps exactly the users added from the selected day's midnight up to the next day's midnight. An unreadable date keeps nobody |
| UserTable.FixedZone | src/components/User.tsx:126-130 | the locale of a zone at a fixed offset: `setHours(0, 0, 0, 0)` rounds local time down to a multiple of a day, and `setDate(getDate() + 1)` adds one day |
| UserTable.UtcDateInput | src/components/User.tsx:121 | `new Date(e.target.value)` on a "YYYY-MM-DD" value: midnight UTC of that day, and nothing for an unreadable value |
| UserTable.LocalDateInput | src/components/User.tsx:121 | the corrected reading of the date box: local midnight of the picked day |
| UserTable.FixedZoneWindow | src/components/User.tsx:122-130 | in a zone at a fixed offset, an instant on local day `n` gives the window from local midnight of day `n` to local midnight of day `n + 1` |
| UserTable.UtcInputShowsDayBefore | src/components/User.tsx:121-136 | west of UTC, `new Date("YYYY-MM-DD")` is midnight UTC, which falls on the previous local day, so the filter shows the users added on the day before the picked one |
| UserTable.UtcInputEastShowsPickedDay | src/components/User.tsx:121-136 | at UTC and east of it, the same reading shows the users added on the picked local day |
| UserTable.LocalInputShowsPickedDay | src/components/User.tsx:121-136 | reading the picked day as local midnight shows the users added on that local day, at every offset |
| UserTable.Flip | src/components/User.tsx:105 | the next sort direction differs from the current one |
| UserTable.KeyLess | src/components/User.tsx:99-101 | `a[columnName] > b[columnName]` and `<`: strings by `<` on strings, timestamps by time. Only values of the same kind are ever below one another |
| UserTable.KeyLessIrreflexive | src/components/User.tsx:99-101 | no column value is less than itself |
| UserTable.KeyLessTransitive | src/components/User.tsx:99-101 | the column comparison is transitive |
| UserTable.KeyLessTotal | src/components/User.tsx:99-101 | two different values of the same column are ordered one way or the other |
| UserTable.KeyOf | src/components/User.tsx:99-101 | `a[columnName]`: a timestamp for the added-date column and a string for the other two |
| UserTable.Precedes | src/components/User.tsx:97-103 | the comparator's verdict "a goes before b" for a column and direction. It only holds between rows whose keys differ |
| UserTable.PrecedesAsymmetric | src/components/User.tsx:97-103 | the comparator never puts each of two rows before the other |
| UserTable.PrecedesTotal | src/components/User.tsx:97-103 | rows with different keys are ordered one way or the other |
| UserTable.NotPrecedesTransitive | src/components/User.tsx:97-103 | "not after" is transitive under the comparator |
| UserTable.Insert | src/components/User.tsx:97-103 | inserting a row into the sorted part adds exactly that row |
| UserTable.InsertOrdered | src/components/User.tsx:97-103 | inserting into an ordered sequence keeps it ordered |
| UserTable.SortedBy | src/components/User.tsx:97-103 | the sort returns a permutation of the view, ordered by the column. It is ascending for "asc" and descending for "desc" |
| UserTable.OrderedSameFirst | src/components/User.tsx:97-103 | two ordered arrangements of the same rows with distinct keys start with the same row |
| UserTable.OrderedUnique | src/components/User.tsx:97-103 | with distinct keys there is exactly one ordered arrangement, so every correct sort returns it |
| UserTable.ReverseOrdered | src/components/User.tsx:98-101 | an ascending arrangement read backwards is descending, and the other way round |
| UserTable.SortTwiceReverses | src/components/User.tsx:96-106 | with distinct keys, clicking the same column twice reverses the first result |
| UserTable.UsersPage.Valid | src/components/User.tsx:13-14 | the class invariant: the rows on screen are a sub-collection of the loaded records |
| UserTable.UsersPage.Mount | src/components/User.tsx:13-38 | the initial state (ascending, empty search), then the load on mount. The view equals the active records fetched |
| UserTable.UsersPage.FetchUsers | src/components/User.tsx:18-34 | a successful load sets both arrays to the active fetched records. A failed read changes nothing |
| UserTable.UsersPage.HandleAddUser | src/components/User.tsx:40-51 | sends username "New User", status "active" and the current time. If the store accepts, the page reloads; otherwise nothing changes |
| UserTable.UsersPage.HandleDeleteUser | src/components/User.tsx:53-69 | after a successful delete, no row with the id remains in either array and the rest keep their order. A failed delete changes nothing |
| UserTable.UsersPage.HandleChangeStatus | src/components/User.tsx:71-94 | after a successful update, both arrays carry the toggled status on rows with the id, and nothing else changes. A failed update changes nothing |
| UserTable.UsersPage.HandleSort | src/components/User.tsx:96-106 | the view becomes a permutation of itself, ordered by the column in the current direction. The direction flips and `users` is untouched |
| UserTable.UsersPage.HandleFilter | src/components/User.tsx:108-118 | stores the lower-cased input and shows the users matching it |
| UserTable.UsersPage.HandleDateFilter | src/components/User.tsx:120-138 | reads the date box with the locale's `new Date`, then shows the users added in the window that date gives. An unreadable date shows nobody. `users` is untouched |
| Weather.IconUrl | src/components/Home.tsx:16-49 | the image address of each category's icon, and of the "Not Found" icon at Home.tsx:72 |
| Weather.CityGiven | src/components/Home.tsx:51-53 | the input check `if (!cityName) return`: an absent or empty city is refused |
| Weather.MainCondition | src/components/Home.tsx:65 | `data.weather[0]?.main`: the first entry's condition, and none for an empty list |
| Weather.KindsDistinct | src/components/Home.tsx:16-49 | no two of the eight categories share a name |
| Weather.Select | src/components/Home.tsx:64-66 | the selection holds exactly the table's categories whose name equals the condition |
| Weather.SelectKnown | src/components/Home.tsx:16-49 | a condition named in the table selects exactly its own category |
| Weather.SelectUnknown | src/components/Home.tsx:64-66 | an unknown or missing condition selects nothing |
| Weather.SelectAtMostOne | src/components/Home.tsx:16-66 | the selection from the table never holds more than one category |
| Weather.Settled | src/components/Home.tsx:58-77 | what each outcome leaves behind. A throw changes nothing. A non-OK response shows one "Not Found" entry and keeps `apiData`. An OK response sets `apiData` and shows the selection. When the body has no `weather` list it keeps the list, or empties it over an empty table. `apiData` changes only on an OK response |
| Weather.SettledAtMostOne | src/components/Home.tsx:61-74 | the result list never grows past one entry |
| Weather.Display | src/components/Home.tsx:109-131 | the spinner while loading. Otherwise the panel exactly when the list is non-empty, with the header from `apiData`, the first entry, and that entry's icon address |
| Weather.SelectedShown | src/components/Home.tsx:61-67 | an OK response whose condition selects one category shows that category under the new place |
| Weather.KnownConditionShown | src/components/Home.tsx:61-67 | an OK response with a known condition shows that category under the new place |
| Weather.UnknownConditionBlank | src/components/Home.tsx:61-67 | an OK response with an unknown condition shows nothing |
| Weather.NotFoundShown | src/components/Home.tsx:68-74 | a non-OK response shows "Not Found" under the previous `apiData` |
| Weather.WeatherPage.constructor | src/components/Home.tsx:12-14 | the initial state: no data, empty list, not loading |
| Weather.WeatherPage.StartFetch | src/components/Home.tsx:52-56 | an empty or absent city returns without changing anything. Otherwise `loading` is set and the spinner shows |
| Weather.WeatherPage.FinishFetch | src/components/Home.tsx:57-80 | the state becomes what `Settled` gives for the outcome, and `loading` is cleared whatever the outcome |
| Weather.WeatherPage.FetchWeather | src/components/Home.tsx:51-81 | one click: without a city nothing changes at all. With a city the request settles and `loading` ends false |

## Left out

- Firestore and HTTP calls are not modelled. They are foreign calls, so each handler takes its result as a parameter: the fetched records or `None`, or an `ok` flag.
- The request URL and the API key are not modelled because they do not affect state.
- `new Date(value)`, `toLocaleDateString`, local midnight (`setHours(0, 0, 0, 0)`) and `setDate(getDate() + 1)` are not modelled. They depend on the locale and time zone, so they are the four functions of `UserTable.Locale`.
- UserTable.UsersPage.HandleDateFilter: states the window through the `Locale` functions. Which local day that window covers is proved only for zones at a fixed offset (`UserTable.FixedZone`). Daylight-saving transitions are not modelled.
- Timestamps are whole numbers in the order of the instants they denote. Firestore's `Timestamp.valueOf` returns a string built so that string comparison follows that order, so `>` and `<` on two timestamps give the same answers. Nanosecond precision is not modelled.
- Text.LowerChar, Text.Lower: lower-case ASCII letters only. JavaScript's Unicode case mapping is table-driven and is not modelled. It is also context-dependent: a word-final capital sigma becomes "ς" and any other becomes "σ", so `"ΑΣ"` lower-cases to `"ας"` but `"ΑΣΑ"` to `"ασα"`. Text.LowerAppend and UserTable.TypingNarrowsSearch therefore hold for JavaScript only where no such context applies, as in ASCII text.
- Text.StrLess: compares characters by their Dafny `char` code. JavaScript compares UTF-16 code units, and the two differ for characters outside the Basic Multilingual Plane.
- UserTable.SortedBy: is a deterministic insertion sort. The source's comparator returns -1 both ways for equal keys, so the order JavaScript's `sort` gives to ties is left to the engine. The model claims only that the result is a permutation, is ordered, and is the unique ordered arrangement when keys are distinct.
- UserTable.UsersPage.HandleSort: takes one of the three header columns as a datatype, so a column name outside the three is not modelled.
- Records are assumed well formed: every record has a string `username` and `status` and a timestamp `addedDate`. The source's untyped objects could lack them. The load builds each record as `{ id: doc.id, ...doc.data() }`, so a stored `id` field would override the document id. The model takes each record's id as given.
- Concurrent clicks and the interleaving of `await`s are not modelled: every handler is atomic. In the source, `handleAddUser` starts the reload without waiting for it.
- The temperature `apiData.main.temp` is not modelled: `Weather.Payload` has no field for it. The panel header is the stored body, which holds the place name and country.
- Rendering and styling (JSX), the router shell in src/App.tsx and src/main.tsx, and the login and sign-up pages are not part of this model.

## Findings

| source | as written | input that shows it | evidently intended | confidence | as-written member | corrected member |
|---|---|---|---|---|---|---|
| src/components/User.tsx:121-130 | `new Date(e.target.value)` reads the date box's "YYYY-MM-DD" as midnight UTC, and `setHours(0, 0, 0, 0)` then takes local midnight of the local day that instant falls on | at UTC-5, picking 2024-03-10: the parsed instant is 2024-03-09 19:00 local, so the filter shows the users added on 2024-03-09 | the users added on the picked local day | not executed | UserTable.UtcInputShowsDayBefore | UserTable.LocalInputShowsPickedDay |
