# Search-with-API demo screen, modelled in Dafny

The repository is one React Native screen (`App.tsx`). It fetches a list of
users from a local HTTP endpoint and shows them in a list. It lets the user
filter that list by name as they type. This project models the two pieces of
logic in that screen and proves properties of them:

- **The name filter** `filterData`. A user is kept when their lower-cased name
  includes the lower-cased search text. Module `AsciiText` (`ascii_text.dfy`)
  models `toLowerCase`, restricted to ASCII, and `includes`. Module `UserFilter`
  (`user_filter.dfy`) models the `UserData` record and the filter. The filter is
  proved equal to an independent definition: an order-preserving selection
  that keeps every occurrence of each matching user and no other user.
- **The screen state.** There are five `useState` fields: `data`,
  `filteredData`, `isFetching`, `showUnfetchButton` and `searchText`. Module
  `Screen` (`screen.dfy`) holds them in the class `ScreenState`, with one method
  per event:
  - the start of a fetch;
  - its completion with a success or failure outcome;
  - the delayed-fetch button;
  - the unfetch button;
  - a change to the search text.

  Each method states its whole new state. Each also keeps the invariant
  `filteredData == FilterData(data, searchText)`.

  The stronger invariant `Reachable()` adds two facts. The search text is
  empty whenever the search box is hidden. The search box is hidden while a
  fetch runs. Every event keeps `Reachable()` when it fires from a control
  that is rendered and enabled. As a result, the search text that
  `fetchUserData` reads from its closure is always `""`. A successful fetch
  therefore shows the whole fetched list.

The screen never calls `toUpperCase`. `AsciiText.Upper` and `AsciiText.UpperChar`
exist only to state that the filter ignores the case of the search text.

The guards `FetchButtonEnabled`, `UnfetchButtonEnabled` and `SearchBoxShown`
(App.tsx:100-107, 118-126, 128-138) say which controls the user can reach. The
`Reachable()` clauses of the event methods assume those guards.

`scenarios.dfy` drives the class through three sessions:
1. Load one user, search "ali" and then "bob", and unfetch.
2. Fetch twice with failures.
3. Fetch an empty list, which leaves no usable button.

## Model

| member | source | states |
|---|---|---|
| AsciiText.LowerChar | App.tsx:85 | lower-casing one character yields no upper-case ASCII letter; a character that is not an upper-case ASCII letter is kept, and an upper-case one becomes the lower-case letter whose upper case it is |
| AsciiText.Lower | App.tsx:85 | `toLowerCase` keeps the length and lower-cases each position |
| AsciiText.LowerIdempotent | App.tsx:85 | lower-casing an already lower-cased string changes nothing |
| AsciiText.LowerOfUpper | App.tsx:85 | a string and its upper-cased form lower-case to the same text |
| AsciiText.IncludesIffOccurs | App.tsx:85 | `includes` is true iff the searched text occurs at some index of the string |
| AsciiText.IncludesEmpty | App.tsx:85 | every string includes the empty string |
| UserFilter.FilterData | App.tsx:84-86 | the result is no longer than the input, and every kept user is an input user that matches the query |
| UserFilter.FilterIsSubsequence | App.tsx:85 | the result is a subsequence of the input: relative order is preserved |
| UserFilter.FilterCounts | App.tsx:85 | a matching user occurs as often in the result as in the input; a non-matching one never occurs |
| UserFilter.FilterIsFilterOf | App.tsx:84-86 | the filter meets the reference definition `IsFilterOf` (order-preserving, keeps exactly the matching occurrences) |
| UserFilter.FilterOfIsUnique | App.tsx:84-86 | any list meeting `IsFilterOf` is the filter's result, so the reference definition determines `filterData` |
| UserFilter.FilterMembership | App.tsx:85 | a user is kept iff it is in the input and the lower-cased query occurs in its lower-cased name; every dropped user fails that test |
| UserFilter.FilterEmptyQuery | App.tsx:85 | with an empty search text, the list is returned unchanged |
| UserFilter.FilterCaseInsensitive | App.tsx:85 | two queries that lower-case to the same text give the same result |
| UserFilter.FilterUpperQuery | App.tsx:85 | the upper-cased query gives the same result as the query |
| UserFilter.FilterIdempotent | App.tsx:85 | filtering the filtered list again with the same query changes nothing |
| Screen.ScreenState.constructor | App.tsx:28-32 | the initial state: both lists and the search text empty, both flags false; `Reachable()` holds and the fetch button is enabled |
| Screen.ScreenState.BeginFetch | App.tsx:34-37 | start of a fetch: `isFetching` set, `showUnfetchButton` cleared, lists and search text unchanged; keeps `Valid()` and, when started with the fetch button shown, `Reachable()` |
| Screen.ScreenState.FinishFetch | App.tsx:42-53 | on success `data` is the result, `filteredData` is its filter by the search text (the whole result in a reachable state) and the unfetch button appears; on failure lists and button are unchanged; `isFetching` ends false and the search text is unchanged either way |
| Screen.ScreenState.FetchUserData | App.tsx:34-55 | the whole fetch: on success as above; on failure lists and search text unchanged and `showUnfetchButton` false; `isFetching` ends false; keeps the invariants |
| Screen.ScreenState.FetchUserDataWithDelay | App.tsx:61-66 | the delayed-fetch handler only sets `isFetching`; from an enabled fetch button it keeps `Reachable()` |
| Screen.ScreenState.UnfetchUserData | App.tsx:68-74 | unfetch empties `data`, `filteredData` and `searchText` and clears both flags, which re-establishes `Reachable()` |
| Screen.ScreenState.ChangeSearchText | App.tsx:133-136 | a new search text re-filters the unchanged `data` and leaves both flags alone; keeps `Valid()`, and keeps `Reachable()` when typed into the shown search box |
| Screen.ScreenState.FetchButtonEnabled | App.tsx:100-107 | the fetch button is usable only when the unfetch button is not rendered and no fetch runs, so never together with the search box |
| Screen.ScreenState.UnfetchButtonEnabled | App.tsx:118-126 | the unfetch button is usable only when rendered and `data` is non-empty; it then shows beside the search box and never beside a usable fetch button |
| Screen.ScreenState.SearchBoxShown | App.tsx:128-138 | the search box, the only way to change the search text, is rendered exactly while `showUnfetchButton` holds |
| Screen.EmptyHintShown | App.tsx:112-116 | as written, the "please fetch again" hint shows iff a fetch is running and the filtered list is empty |
| Screen.IntendedEmptyHintShown | App.tsx:112-116 | corrected: the hint shows iff no fetch is running and the filtered list is empty |
| Screen.IntendedHintWhenIdle | App.tsx:112-116 | in every reachable state where the fetch button can be pressed, the corrected hint shows exactly when `data` is empty, and the hint as written never shows |
| Screen.IdleScreenNeverStuck | App.tsx:118-126 | corrected: with unfetch usable whenever shown, every reachable idle state offers the fetch button or the unfetch button |
| Scenarios.EmptyFetchDeadEnd | App.tsx:100-136 | as written: after a fetch that returns an empty list, and after typing a search text, neither the fetch nor the unfetch button is usable |
| Screen.EmptyHintInverted | App.tsx:112-116 | with an empty list, the written hint is shown exactly when the intended one is hidden |
| Screen.NoMatchHintShown | App.tsx:141-151 | "No matching users found." shows iff the filtered list is empty and the search text is not |

## Left out

- The HTTP request, its URL and `response.json()` decoding (App.tsx:39-46) are network I/O and a foreign JSON parser. Only their outcome is modelled, as the `FetchOutcome` parameter. A non-ok status, a network error and a decoding error all count as `Failure`.
- The 2000 ms `setTimeout` (App.tsx:63-65) is timer scheduling. Only its synchronous effect is modelled; the delayed call is a separate `FetchUserData` event.
- The `useEffect` on mount (App.tsx:57-59) is the constructor followed by one `FetchUserData` event.
- Other events can interleave between `BeginFetch` and `FinishFetch`. The UI offers none then: the search box and the unfetch button are hidden, and the fetch button is disabled.
- React's re-rendering and stale closures are not modelled. `FinishFetch` reads the current `searchText`, not the value captured when `fetchUserData` was created. `Reachable()` shows both are `""` whenever a fetch runs.
- `console.error` (App.tsx:51) is logging.
- `toLowerCase` is modelled for ASCII letters only. Full Unicode case mapping is not modelled.
- Rendering is not modelled: the layout, styles, `FlatList`, `renderUserItem`, the header (App.tsx:93-97), the spinner (App.tsx:110) and the keyboard handling. The exceptions are the button and search-box guards used by the events, and the two hint conditions.
- Screen.ScreenState.FinishFetch and Screen.ScreenState.FetchUserData: a response that is not a well-typed user list is not modelled. `User` always has a string `name`. In the program, the response is cast to `UserData[]` without a check (App.tsx:46), and `setData(result)` (App.tsx:47) runs before `filterData` (App.tsx:48). A body that is not an array, or a record without a string `name` (App.tsx:79 expects missing names), makes `.filter` or `user.name.toLowerCase()` throw. The catch at App.tsx:50 then leaves `data` set to the response and `filteredData` stale. So in the program `Valid()` holds only for well-typed responses; the model's `Failure` covers only failures before App.tsx:47.
- AsciiText.LowerOfUpper: holds only for the ASCII case mapping. In JavaScript `"ß".toUpperCase()` is `"SS"`, whose lower case is `"ss"`, not `"ß"`; `"ς"` upper-cases to `"Σ"`, which lower-cases to `"σ"`.
- UserFilter.FilterUpperQuery: holds only for the ASCII case mapping. In the program `filterData(users, "ß")` keeps a user named "Straße", and `filterData(users, "ß".toUpperCase())`, that is `filterData(users, "SS")`, drops it.

## Findings

| source | as written | input that shows it | evidently intended | confidence | as-written member | corrected member |
|---|---|---|---|---|---|---|
| App.tsx:112-116 | `!isFetching && filteredData.length === 0 \|\| filteredData.length === 0 && <Text>`: when the left operand is `true`, React renders it as nothing, so the hint shows only while fetching | `isFetching = false`, `filteredData = []` (idle after a failed fetch): hint hidden; `isFetching = true`, `filteredData = []`: hint shown beside the spinner | hint shown when no fetch is running and the list is empty | medium (relies on React rendering booleans as nothing), not executed | Screen.EmptyHintShown, Screen.EmptyHintInverted | Screen.IntendedEmptyHintShown, Screen.IntendedHintWhenIdle |
| App.tsx:118-126 | `disabled={!data.length}` on the unfetch button, which is rendered only when the fetch button is not (App.tsx:100): after a fetch returns an empty list, no button is usable and typing changes nothing, so the user can never fetch again | fetch succeeds with `[]`: `showUnfetchButton = true`, `data = []`, `isFetching = false` | a way back: unfetch usable whenever it is shown | medium (the disabling may be deliberate, but it leaves no way to fetch again), not executed | Scenarios.EmptyFetchDeadEnd | Screen.ScreenState.IntendedUnfetchButtonEnabled, Screen.IdleScreenNeverStuck |
