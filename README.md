# Character list controller of zodiaco-api, in Dafny

The mobile client of zodiaco-api shows a searchable list of "Caballeros del Zodiaco" characters
that it fetches from the characters service. Its logic lives in one React component. This project
models that component's state and logic and proves properties about them:

- **The search** (`filterCharacters`). A query that is blank after trimming shows the whole list.
  Any other query keeps the records whose `name`, `description` or `role` contains the query, with
  both sides lower-cased. Kept records stay in their original order. The module is `Search`, and its
  string primitives (`toLowerCase`, `trim`, `includes`, number-to-text) are in module `Text`.
- **The request cycle** (`fetchChars`, `onRefresh`). Module `Fetch` turns an HTTP outcome into a
  loaded list or an error message. The class `Controller.CharacterList` holds the component's six
  state variables and applies each event to them: mount, start of a request, end of a request,
  refresh, typing, clearing the search, and the debounce timer firing.
- **The debounced recompute**. At most one 300 ms timeout is pending. It is stored with the list
  and query its closure captured. Any change to the query or the list replaces it, and firing it
  runs the search. The class invariant proves that the captured values are always the current
  ones. It also proves that once nothing is pending, the view is exactly the search of the current
  list by the current query.
- **The screen** (`Screens.SelectScreen`). The component renders the loading screen, the error
  screen or the list, chosen from `loading`, `refreshing` and `error`.

Time, the network and React's scheduler are not modelled. Each of them becomes an event method
that the environment calls: `StartFetch`, `CompleteFetch(outcome)`, `Refresh`, `SetSearchQuery`,
`ClearSearch` and `FireDebounce`. The response (status and body, or a rejected request) is a
parameter of `CompleteFetch`. A ghost counter `inFlight` tracks outstanding requests; the
component itself keeps no such count.

The model follows the code on these points, which a reader might expect to work otherwise:

- There are no request sequence numbers. Whichever response ends last decides the list
  (`Controller.LastResponseWins`).
- A successful load sets the view to the whole new list without applying the current query
  (mobile/App.js:41). The view catches up when the recompute that the new list scheduled fires.
- Clearing the search is not synchronous. It only empties the query; the view widens when the
  recompute fires (`Controller.SearchThenClear`).
- A success does not clear an earlier error. With two requests in flight, a failure followed by a
  success leaves the error screen over fresh data (`Controller.FailureOutlivesLaterSuccess`).
  `Sequential()` is preserved by retry on the error screen and by pull-to-refresh on a list that
  is not refreshing. The component passes `onRefresh` to the `RefreshControl` even while
  `refreshing` is true (mobile/App.js:190-197). The claim that at most one request is outstanding
  through the UI therefore rests on an assumption about React Native: that it does not fire
  `onRefresh` while the control shows `refreshing={true}`. The model does not assume it: `Refresh`
  may be called while refreshing, which starts a second, overlapping request, and `Sequential()`
  is then not promised.
- The characters router offers only list and create
  (microservices/characters/src/routes/characters.js:14-23). Get-by-id, update, delete and the
  zodiac-sign filter appear only as text in the welcome message
  (microservices/characters/src/index.js:26-31), so none of them is modelled. The server's health
  check and seed endpoints (index.js:52 and 77-182) are outside this model.

## Model

| member | source | states |
|---|---|---|
| `Text.Lower` | mobile/App.js:70-72 | lower-casing folds every character on its own and keeps the length |
| `Text.LowerIdempotent` | mobile/App.js:70-72 | folding an already folded string changes nothing |
| `Text.LowerKeepsBlank` | mobile/App.js:64-72 | a query is blank exactly when its lower-cased form is blank |
| `Text.TrimStartShape` | mobile/App.js:64 | trimming the start removes only whitespace and keeps a suffix that does not start with whitespace |
| `Text.TrimEndShape` | mobile/App.js:64 | trimming the end removes only whitespace and keeps a prefix that does not end with whitespace |
| `Text.TrimShape` | mobile/App.js:64 | `q.trim()` is a slice of `q` with only whitespace before and after it |
| `Text.BlankIffAllWhitespace` | mobile/App.js:64 | `!q.trim()` holds exactly when every character of `q` is ECMAScript whitespace |
| `Text.TrimStart` | mobile/App.js:64 | trimming the start keeps a string that does not start with whitespace, and never leaves one that does |
| `Text.TrimEnd` | mobile/App.js:64 | trimming the end keeps a string that does not end with whitespace, and never leaves one that does |
| `Text.Trim` | mobile/App.js:64 | `q.trim()` has no whitespace at either end and returns a string without surrounding whitespace unchanged |
| `Text.IsBlank` | mobile/App.js:64 | `!q.trim()` holds exactly when every character of `q` is whitespace |
| `Text.Contains` | mobile/App.js:70-72 | `includes` finds the empty part, finds a part at the start, and never finds a part longer than the text |
| `Text.ContainsIffOccurs` | mobile/App.js:70-72 | `includes` finds a part exactly when some start position holds it; the empty part is always found |
| `Text.ContainsTransitive` | mobile/App.js:70-72 | a part of a part of a string is a part of that string |
| `Text.Decimal` | mobile/App.js:35 | the status in the error message is a numeral of digits with no leading zero |
| `Text.DecimalRoundTrip` | mobile/App.js:35 | reading the numeral back gives the status |
| `Search.FieldMatches` | mobile/App.js:70-72 | one field matches exactly when it is present and the lower-cased query occurs in it, lower-cased; an absent field never matches |
| `Search.Matches` | mobile/App.js:69-73 | the `filter` callback: the lower-cased query occurs in the lower-cased name, description or role; a record with none of the three never matches |
| `Search.Select` | mobile/App.js:69-73 | `allChars.filter(...)` keeps every matching record as often as it occurs, drops every other one, and keeps the order (a subsequence) |
| `Search.FilterCharacters` | mobile/App.js:63-76 | a blank query gives exactly the full list; otherwise every shown record matches and every matching record is shown, as often as it occurs in the list; always a subsequence of the list |
| `Search.SubsequenceBounds` | mobile/App.js:69 | a subsequence is never longer than the list and adds no element |
| `Search.FilterNeverGrows` | mobile/App.js:63-76 | the view is never longer than the list and holds nothing the list does not |
| `Search.FilterIdempotent` | mobile/App.js:63-76 | searching the view again with the same query gives the same view |
| `Search.QueryCaseInsensitive` | mobile/App.js:64-72 | a query and its lower-cased form show the same view |
| `Search.NarrowingQuery` | mobile/App.js:63-76 | when the longer query contains the shorter one, the longer query's view is a subsequence of the shorter one's |
| `Search.QueryIsNotTrimmed` | mobile/App.js:64-72 | "shi " is not blank and misses "Shiryu", while its trimmed form "shi" finds it: only the blankness test trims |
| `Search.MissingFieldsNeverMatch` | mobile/App.js:70-72 | a record with no name, description or role is never shown for a non-blank query |
| `Fetch.Run` | mobile/App.js:32-44 | a non-2xx status fails with its status message; an unparseable ok body fails with the parser's message; a non-array JSON body loads `[]`; an array loads as it is; a rejected request fails with its own message |
| `Fetch.StatusMessage` | mobile/App.js:34-36 | the message is "Error ", the status numeral, then ": No se pudo conectar" |
| `Fetch.StatusMessageInjective` | mobile/App.js:35 | different statuses give different messages |
| `Fetch.HttpErrorHasMessage` | mobile/App.js:34-35 | an error status always yields a non-empty message, so the error screen has text to show |
| `Screens.SelectScreen` | mobile/App.js:147-182 | loading screen iff `loading && !refreshing`; error screen iff not that and `error` is truthy and not refreshing, showing `error`; otherwise the list of `filteredChars` with the refresh spinner set to `refreshing` |
| `Screens.RefreshKeepsList` | mobile/App.js:147-197 | while refreshing, the list stays on screen whatever `loading` and `error` say |
| `Screens.StartableScreensAreIdle` | mobile/App.js:160-197 | the retry button and the pull gesture on a list that is not refreshing are only offered while no load is in progress |
| `Controller.CharacterList.View` | mobile/App.js:147-209 | the component's screen: loading iff loading and not refreshing; error iff neither and a truthy error is stored; otherwise the current view, which always shows while refreshing |
| `Controller.CharacterList.constructor` | mobile/App.js:20-61 | mounting starts with an empty list and view, loading, no error and an empty query, starts one request and schedules one recompute; the loading screen shows |
| `Controller.CharacterList.StartFetch` | mobile/App.js:27-31 | raises `loading` and clears `error`; nothing else changes; from the error screen it keeps requests sequential |
| `Controller.CharacterList.CompleteFetch` | mobile/App.js:32-48 | on success list and view both become the loaded list and a recompute with the current query is pending; on failure only `error` changes; `loading` and `refreshing` end false |
| `Controller.CharacterList.Refresh` | mobile/App.js:78-81 | raises `refreshing` and starts a request; the previous view stays on screen with the spinner |
| `Controller.CharacterList.SetSearchQuery` | mobile/App.js:122 | typing (`onChangeText={setSearchQuery}`), with the effect at mobile/App.js:55-61 that it re-runs: a new query replaces the pending recompute with one that captured it; the same query changes nothing; the view is untouched |
| `Controller.CharacterList.ClearSearch` | mobile/App.js:83-86 | empties the query and leaves the view as it was until the recompute fires |
| `Controller.CharacterList.FireDebounce` | mobile/App.js:55-76 | firing the timeout makes the view exactly the search of the current list by the current query, and nothing is pending |
| `Controller.SearchShiKeepsShiryu` | mobile/App.js:63-76 | searching "shi" in [Seiya, Shiryu] shows [Shiryu] |
| `Controller.SearchThenClear` | mobile/App.js:55-86 | load [Seiya, Shiryu], type "shi" and fire: [Shiryu]; clear: still [Shiryu]; fire: [Seiya, Shiryu] |
| `Controller.LastResponseWins` | mobile/App.js:27-48 | with two requests outstanding and both succeeding, the list is the one from the completion that comes last; completions carry no request identity |
| `Controller.FailureOutlivesLaterSuccess` | mobile/App.js:27-48 | a failure followed by a success of an overlapping request stores the new list but keeps showing the error screen |

## Left out

- `Text.Lower`: folds only ASCII capitals and the Latin-1 capitals U+00C0..U+00DE (except U+00D7). Full Unicode case mapping, such as Greek or multi-character mappings, is not modelled.
- Record fields are strings or absent. A record field that is a non-string value, or a `null` element in the array, makes the filter throw inside the timer. That crash is not modelled.
- An `error` value that is not a string, from a thrown non-`Error` value, becomes an absent message.
- Real time, `await` and React's scheduler are replaced by discrete events. A state update and the effect re-run it causes are treated as one step. An old timer firing in the gap before React re-runs the effect is not modelled.
- `Keyboard.dismiss`, `console.error`, the placeholder texts and image of a card, the result count, `keyExtractor` fallbacks and all styles: presentation only.
- The characters service (server bootstrap, routes, mongoose model, seed script, API docs) and the other screens and components: I/O and framework wiring with no logic of their own.
- `Number(cosmos) || 0` in the add-character screen: floating-point parsing.
