# World countries directory: a Dafny model of its view logic

The repository is one React component, `src/App.jsx`. It fetches a list of
countries once, renders them as cards with a search box and a "Load More"
button, and swaps in a placeholder image when a flag fails to load. This
project models that component as a view-model:

- `text.dfy` (module `Text`): the string operations the component uses.
  These are ASCII `toLowerCase`, `includes` as substring containment,
  `join`, and the decimal rendering of a count inside a template literal.
- `countries.dfy` (module `Countries`): the country record and the filter
  engine. The filter builds a lower-cased haystack from name, capital and
  language names, then keeps, in order, the countries whose haystack holds
  the query. The module also holds the search input's query normalisation.
- `render.dfy` (module `Render`): the view state (`Loading`, `Loaded`,
  `Error`) and the hero message. It also holds the slice of the filtered
  list that is rendered, the "Load More" condition, the flag image source,
  and the whole rendered `View` as a function of the state.
- `app.dfy` (module `AppState`): class `App`, whose fields are the five
  `useState` values. Its methods are the events: `FetchSucceeded`,
  `FetchFailed`, `SetInput` (the input handler plus the query-reset effect),
  `LoadMore` and `FlagError`. `App.Valid()` is the invariant every
  reachable state keeps. The three scenario methods at the end replay
  three usage scenarios against the methods' contracts.

The filter matches the query against ONE joined string. A query can
therefore straddle two fields: "e p" selects France (capital Paris), though
it occurs in no single field. The model follows the code here.
`Countries.FieldMatch` proves that a query found inside a single field
always selects the country. `Countries.StraddlingNeedle` shows that the
converse fails.

Each event, together with the query-reset effect that follows it, is one
atomic step. The fetch outcomes require the `Loading` state, because the
mount effect runs once. The search, "Load More" and flag-error events
require the `Loaded` state, because their controls are rendered only then.
"Load More" also requires its button to be rendered. A flag error requires
its country to be among the rendered cards. No method other than the two
fetch outcomes may modify `state`. So the view state leaves `Loading` at
most once, and `Loaded` and `Error` are final.

## Model

| member | source | states |
|---|---|---|
| `Text.Lower` | src/App.jsx:62 | lower-casing keeps the length, lower-cases each ASCII letter and leaves no upper-case letter |
| `Text.LowerIdempotent` | src/App.jsx:62 | lower-casing twice is lower-casing once |
| `Text.Contains` | src/App.jsx:63 | `includes`: some position starts a copy of the needle; the empty needle is always contained, and a contained needle is no longer than the text |
| `Text.Join` | src/App.jsx:60-62 | `join(' ')`: no parts give the empty string, and every part occurs in the joined string |
| `Text.JoinAppend` | src/App.jsx:60-62 | the join read left to right: one part joins to itself, and appending a part appends the separator and then that part |
| `Text.JoinLength` | src/App.jsx:60-62 | the joined length is the sum of the parts' lengths plus one separator between each two parts |
| `Text.NatToString` | src/App.jsx:50 | the rendered count is a non-empty string of decimal digits with no leading zero |
| `Text.NatToStringRoundTrip` | src/App.jsx:50 | reading the rendered count back gives the count |
| `Countries.LanguageNames` | src/App.jsx:60-61 | the mapped list has one name per language, in order |
| `Countries.Haystack` | src/App.jsx:58-62 | the searched text is lower-case, has the length of name, capital and joined languages plus two spaces, and starts with the lower-cased name followed by a space |
| `Countries.Matches` | src/App.jsx:63 | the filter callback's test; the empty needle selects every country, and a selecting needle fits in the haystack |
| `Countries.FilterBy` | src/App.jsx:57-64 | the filtered list is a subsequence of the countries; all its countries match; every matching country is in it |
| `Countries.Filter` | src/App.jsx:56-65 | with no query the result is the country list itself; in every case it is an order-preserving subsequence whose every country the query selects |
| `Countries.FilterByEmptyNeedle` | src/App.jsx:56-65 | an empty query would select every country, so treating it as no query agrees with the substring test |
| `Countries.FilterMembership` | src/App.jsx:56-65 | a country is in the filtered list if and only if it is in the country list and the query selects it |
| `Countries.FilterByMultiplicity` | src/App.jsx:57-64 | each matching country appears in the result as often as in the input; a non-matching one never appears |
| `Countries.FilterByIdempotent` | src/App.jsx:57-64 | filtering the filtered list again with the same query changes nothing |
| `Countries.FilterIdempotent` | src/App.jsx:56-65 | the whole filter, including the no-query case, is idempotent |
| `Countries.FieldMatch` | src/App.jsx:58-63 | a query inside the lower-cased name, capital or any language name selects the country |
| `Countries.StraddlingNeedle` | src/App.jsx:58-63 | the haystack is one string, so "e p" selects France/Paris though no single field holds it |
| `Countries.Normalize` | src/App.jsx:77-83 | the empty input and only it gives no query; any other input gives a non-empty lower-case query of the same length |
| `Countries.NormalizeIgnoresCase` | src/App.jsx:79 | typing a lower-cased input gives the same query as typing the input |
| `Countries.NormalizeFixesNormal` | src/App.jsx:77-83 | every stored query is a fixed point of the input handler |
| `Render.HeroMessage` | src/App.jsx:40-54 | "Loading..." exactly in the loading state, "Something went wrong." exactly in the error state; when loaded, "Currently we have N countries" where N is the canonical decimal rendering of the count (no leading zero) and reads back as the count |
| `Render.HeroMessageDistinguishes` | src/App.jsx:40-54 | equal hero messages mean equal view states and, once loaded, equal unfiltered counts |
| `Render.VisibleSlice` | src/App.jsx:89 | the rendered countries are the first min(displayCount, filtered count) filtered countries, in order |
| `Render.ShowLoadMore` | src/App.jsx:129-130 | with at least one page shown, the button is rendered if and only if some filtered country is not |
| `Render.LoadMoreExtends` | src/App.jsx:133-135 | a click keeps the rendered cards and appends up to eight more, exactly as many as remain when fewer |
| `Render.ClicksToExhaust` | src/App.jsx:129-135 | after this many clicks the button is gone, and it is shown before each of them |
| `Render.ImageSource` | src/App.jsx:94-98 | the image is the placeholder if and only if the country's name is a broken flag; otherwise it is the country's flag URL |
| `Render.FlagErrorSwapsOnlyThatName` | src/App.jsx:94-101 | appending a name turns that name's images into the placeholder and leaves every other image as it was |
| `Render.FlagErrorRepeated` | src/App.jsx:99-101 | appending a name that is already there changes no image |
| `Render.PlaceholderIsPermanent` | src/App.jsx:94-101 | a placeholder stays a placeholder however the broken flags grow |
| `Render.Cards` | src/App.jsx:89-98 | one card per rendered country, in order, each with its image source |
| `Render.RenderView` | src/App.jsx:67-142 | the hero message is that of the view state and the unfiltered country count; the search box exists exactly when loaded; once loaded there are min(display count, filtered count) cards; otherwise no card and no button; card i shows filtered country i with its image source; the button implies hidden countries, and once loaded with a full page shown the converse holds too |
| `Render.HeroShowsFetchedCount` | src/App.jsx:50 | the hero message does not depend on the query, the display count or the broken flags, and once loaded its digits read back as the number of fetched countries |
| `Render.EmptyFetchView` | src/App.jsx:23-26 | an empty fetch renders "Currently we have 0 countries", the search box, no card and no button |
| `Render.ErrorView` | src/App.jsx:45-73 | the error state renders "Something went wrong." and neither search box, cards nor button |
| `Render.TenCountriesView` | src/App.jsx:129-135 | ten countries without a query render eight cards and the button; a page later, all ten cards with their flags and no button |
| `AppState.App.constructor` | src/App.jsx:13-17 | the initial state: loading, no countries, no query, one page, no broken flags |
| `AppState.App.Filtered` | src/App.jsx:56-65 | the state's filtered list: an order-preserving subsequence of the fetched countries, all selected by the query, the whole list when there is no query |
| `AppState.App.Visible` | src/App.jsx:89 | the rendered countries lead the filtered list, at most the display count of them, and all of it when fewer than the display count |
| `AppState.App.Rendered` | src/App.jsx:67-142 | the state's rendering: the hero message of the fetched count; once loaded, one card per visible country, in order, with its image source, and none otherwise; the button exactly when loaded and the "Load More" condition holds |
| `AppState.App.FetchSucceeded` | src/App.jsx:19-32 | from loading: non-empty data replaces the empty list; the state becomes loaded; nothing else changes |
| `AppState.App.FetchFailed` | src/App.jsx:27-29 | from loading: the state becomes error and the country list stays empty; nothing else changes |
| `AppState.App.SetInput` | src/App.jsx:34-38 | the query becomes the normalised input; the display count is one page if the query changed and unchanged otherwise |
| `AppState.App.LoadMore` | src/App.jsx:129-135 | the display count grows by exactly eight, more cards are rendered, and nothing else changes |
| `AppState.App.FlagError` | src/App.jsx:99-101 | the country's name is appended, duplicates allowed; only images with that name change, to the placeholder |
| `AppState.App.VisibleCountryIsFetched` | src/App.jsx:89-100 | a rendered country is one of the fetched countries, so its name, hence every broken flag, is a fetched name |

## Left out

- The HTTP request (axios) and the async effect plumbing are left out. Only their two outcomes are modelled, as the events `FetchSucceeded` and `FetchFailed`. A response whose `data` is not an array, where `.length` is missing, is also left out: `data` is always a sequence here.
- React render scheduling, effect timing and state batching are left out. Each event and the reset effect after it form one step. So the stale closure in the flag `onError` handler is not modelled: two image errors handled before one re-render would each append to the same old list, and the first name would be lost.
- `toLowerCase` is modelled for ASCII letters only. Full Unicode case mapping, which can change a string's length, is not modelled.
- `population.toLocaleString('en-US')` is an Intl library call and is left out. The population is carried but never rendered.
- The language label's plural "s" and its comma joining are display formatting and are left out. So are the JSX markup, CSS, the `alt` text and the bundled placeholder SVG, which is the `Placeholder` image here.
- A missing `capital` in the fetched JSON would be searched as the text "undefined". The model's capital is always a string.
- The `return ''` fallback of `renderHeroMessage` is unreachable with three view states, so the exhaustive `match` in `HeroMessage` leaves it out.
- `Text.NatToString` renders every natural number in plain decimal. JavaScript switches to exponent notation only from 10^21 on, far beyond any list length.
