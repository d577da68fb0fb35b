# Quran app: search, sort, time formatting, prayer-time lookup and Qibla compass

A Dafny model of the rule-bearing parts of a Next.js Quran reading app. The
rest of the app is rendering. The model covers four components:

- **Chapter list** (`components/surah-list.tsx`, module `SurahList`, file
  `surah_list.dfy`). The search filter over the loaded chapters matches
  case-insensitively on the Latin name or the meaning, and by substring on the
  decimal chapter number. A sort then orders the surviving chapters by one of
  four keys, ascending or descending. `handleSort` is a two-field state machine
  over the sort key and the direction. `getSortLabel` gives the menu caption.
  The component state is the class `SurahListView`. Its `Refresh` method is
  the filter/sort effect. The effect sorts a fresh copy (`SortCopy`, an
  insertion sort on a new array). It is proved to be a permutation of the
  filtered chapters, in comparator order, and stable: chapters the comparator
  ties keep their relative order.
- **Chapter header** (`components/surah-header.tsx`, module `SurahHeader`).
  `formatTime` is modelled on whole seconds (`FormatTime`) and on the
  possibly fractional number the audio element reports (`FormatTimeOf`). The
  model proves the field layout (`M:SS` below an hour, `H:MM:SS` from an hour
  on) and a round trip through a parser of that layout. The scroll rule shows
  the header exactly when the page is scrolled more than 100 pixels.
- **Prayer-times dialog** (`components/prayer-times-modal.tsx`, module
  `PrayerTimes`). This holds the fixed city list, the case-insensitive name
  search over it, and the built-in schedule table with its Jakarta fallback.
  It also holds the Indonesian prayer names, with unknown names passed
  through, and the displayed city name, found with `find` and defaulting to
  "Jakarta".
- **Qibla compass** (`app/kompas/kiblat/kiblatCompass.tsx`, module
  `KiblatCompass`). The bearing normalisation `(q + 360) % 360` is modelled,
  with JavaScript's truncating `%` written out in `jsmath.dfy`. The smoothed
  heading is a 0.8/0.2 moving average. Its truthiness test treats a stored
  heading of exactly 0 as absent. The needle angle `qibla − heading` exists
  only when both values are known. The class `Compass` holds the two state
  values.

Support modules: `Wrappers` (an `Option` for JavaScript's `null`), `Seqs`
(order-preserving `filter` and its multiset/subsequence facts), `Strings`
(`trim`, ASCII `toLowerCase`, `includes`, `localeCompare` as a code-point
order, `split`), `Decimal` (`String(n)`, `padStart(2, "0")` and a digit
parser) and `JsMath` (`Math.trunc`, the `%` operator and floor facts).

The smoothing tests the previous heading for truthiness (`prev ? … : alpha`),
so a stored heading of exactly 0 counts as missing. The readings 0 then 90
therefore give 90, not the 18 a plain moving average would give
(`KiblatCompass.ZeroThenNinety`).

## Model

| member | source | states |
|---|---|---|
| `SurahList.BlankQueryKeepsAll` | components/surah-list.tsx:63-64 | a query that is empty or all white space keeps every chapter, in order |
| `SurahList.SearchKeepsMatches` | components/surah-list.tsx:64-70 | a non-blank query keeps a chapter iff its lower-cased Latin name or meaning contains the lower-cased query, or its decimal number contains the raw query; kept chapters keep their multiplicity and relative order |
| `SurahList.UntrimmedQueryMatching` | components/surah-list.tsx:64-69 | matching uses the untrimmed query, so any white space in a query that matches must occur in the Latin name or the meaning (never in the number) |
| `SurahList.Matches` | components/surah-list.tsx:66-69 | the search test of one chapter; the empty query matches every chapter |
| `SurahList.Select` | components/surah-list.tsx:63-71 | the search only drops chapters (the result is a sub-multiset of the loaded ones), and for a non-blank query every chapter left matches it |
| `SurahList.MatchIgnoresCase` | components/surah-list.tsx:67-69 | lower-casing the query does not change whether a chapter matches: the name and meaning are compared lower-cased, and a query with an upper-case letter occurs in no chapter number either way |
| `SurahList.Compare` | components/surah-list.tsx:74-84 | the key comparison is 0 exactly when the two chapters agree on the key; for the number and verse-count keys it is ≤ 0 exactly when the first value is ≤ the second |
| `SurahList.Oriented` | components/surah-list.tsx:86 | the direction keeps the ties the same and reverses the order of non-tied chapters when descending |
| `SurahList.OrientedAntisymmetric` | components/surah-list.tsx:73-87 | the sort comparator, with the direction applied, is antisymmetric for every key |
| `SurahList.SortCopy` | components/surah-list.tsx:73-87 | sorting returns a permutation of its input in which no neighbouring pair is out of comparator order; it is stable: for every chapter v, the chapters tied with v appear in the same order as in the input |
| `SurahList.SwapKeepsTies` | components/surah-list.tsx:73-87 | exchanging two neighbours the comparator does not tie leaves the order of every class of tied chapters unchanged |
| `SurahList.FilterAndSort` | components/surah-list.tsx:63-89 | the effect body yields a permutation of the filtered chapters, sorted by the current key and direction, with tied chapters in their filtered order |
| `SurahList.SortedByNumericKey` | components/surah-list.tsx:73-86 | for the number and verse-count keys, the sorted list is non-decreasing in that field when ascending and non-increasing when descending, for every pair of positions |
| `SurahList.NextSort` | components/surah-list.tsx:92-103 | after `handleSort(option)` the selected key is always `option` |
| `SurahList.SameKeyToggles` | components/surah-list.tsx:94-97 | choosing the current key keeps it and flips the direction; choosing it twice restores the state |
| `SurahList.NewKeyStartsAscending` | components/surah-list.tsx:98-101 | choosing another key selects it in ascending order whatever the previous direction |
| `SurahList.SortLabel` | components/surah-list.tsx:105-113 | every key has a non-empty caption |
| `SurahList.SortLabelsDistinct` | components/surah-list.tsx:105-113 | the four sort keys have four different captions |
| `SurahList.SurahListView.constructor` | components/surah-list.tsx:33-38 | the list starts empty with an empty query, sorted by chapter number ascending |
| `SurahList.SurahListView.Loaded` | components/surah-list.tsx:48-49 | a successful fetch sets both the loaded and the shown chapters to the data |
| `SurahList.SurahListView.SetSearchQuery` | components/surah-list.tsx:124 | typing stores the query as typed |
| `SurahList.SurahListView.HandleSort` | components/surah-list.tsx:92-103 | the two sort fields move as `NextSort` prescribes |
| `SurahList.SurahListView.Refresh` | components/surah-list.tsx:60-90 | with nothing loaded the shown list is unchanged; otherwise it becomes the filtered chapters in sorted order, tied chapters keeping their filtered order; the loaded list is never modified |
| `SurahHeader.Hours` | components/surah-header.tsx:50 | the hours field is 0 exactly when the time is below 3600 seconds |
| `SurahHeader.Minutes` | components/surah-header.tsx:51 | the minutes field is below 60 |
| `SurahHeader.Seconds` | components/surah-header.tsx:52 | the seconds field is below 60 |
| `SurahHeader.TimeDecomposition` | components/surah-header.tsx:50-52 | hours·3600 + minutes·60 + seconds equals the time, and below an hour minutes·60 + seconds does |
| `SurahHeader.FormatTime` | components/surah-header.tsx:49-57 | the text has two colon-separated fields below one hour and three from one hour on (one or two colons); the last field is exactly two digits |
| `SurahHeader.FormatTimeFields` | components/surah-header.tsx:54-56 | below an hour the fields are the unpadded minutes and the two-digit seconds; from an hour on, unpadded hours, then two-digit minutes and two-digit seconds |
| `SurahHeader.Clock` | components/surah-header.tsx:54-56 | the clock text has one colon without hours and two with hours, and splitting it at the colons gives the field list (hours only when non-zero, then minutes, seconds) |
| `SurahHeader.ClockFieldsRoundTrip` | components/surah-header.tsx:54-56 | reading the field list back (unpadded leading field, two-digit later fields) gives hours·3600 + minutes·60 + seconds |
| `SurahHeader.ClockRoundTrip` | components/surah-header.tsx:54-56 | parsing the clock text back gives hours·3600 + minutes·60 + seconds |
| `SurahHeader.MinutesBelowAnHour` | components/surah-header.tsx:50-55 | below an hour there are no hours and the minutes field is the whole minutes of the time |
| `SurahHeader.FormatTimeRoundTrip` | components/surah-header.tsx:49-57 | parsing the formatted time back gives the original number of seconds |
| `SurahHeader.FloorFields` | components/surah-header.tsx:50-52 | on a non-negative number the floored hour, minute and second fields equal those of its whole part |
| `SurahHeader.FormatTimeOf` | components/surah-header.tsx:49-57 | formatting a fractional time is formatting its whole seconds |
| `SurahHeader.HeaderView.constructor` | components/surah-header.tsx:29 | the header starts visible |
| `SurahHeader.HeaderView.HandleScroll` | components/surah-header.tsx:34-43 | after a scroll event the header is visible iff the offset is greater than 100 |
| `PrayerTimes.NameMatches` | components/prayer-times-modal.tsx:68-70 | the city search test; the empty query matches every city and a query longer than the name matches none |
| `PrayerTimes.CityMatchIgnoresCase` | components/prayer-times-modal.tsx:69 | lower-casing the query does not change whether a city matches |
| `PrayerTimes.FilterCities` | components/prayer-times-modal.tsx:64-73 | the search only drops cities from the list (a sub-multiset), and for a non-blank query every city left matches it |
| `PrayerTimes.SearchByNameFindsCity` | components/prayer-times-modal.tsx:64-73 | typing a listed city's name, in any letter case, keeps that city in the list |
| `PrayerTimes.BlankQueryShowsAll` | components/prayer-times-modal.tsx:65-66 | a blank query shows exactly the city list, in order |
| `PrayerTimes.SearchKeepsMatchingCities` | components/prayer-times-modal.tsx:68-71 | a non-blank query shows exactly the cities whose lower-cased name contains the lower-cased query, in list order; the id is not consulted |
| `PrayerTimes.EveryCityHasSchedule` | components/prayer-times-modal.tsx:45-144 | the schedule table has a key for every listed city id and no other key |
| `PrayerTimes.PopularIdsDistinct` | components/prayer-times-modal.tsx:45-54 | the listed cities have pairwise different ids |
| `PrayerTimes.PopularNameNonEmpty` | components/prayer-times-modal.tsx:45-54 | every listed city has a name that starts with a capital letter |
| `PrayerTimes.ScheduleFor` | components/prayer-times-modal.tsx:146 | a known city id gets its own schedule, any other id gets Jakarta's |
| `PrayerTimes.FormatPrayerName` | components/prayer-times-modal.tsx:155-165 | the six schedule keys map to their Indonesian names; any other name is returned unchanged |
| `PrayerTimes.PrayerNamesDistinct` | components/prayer-times-modal.tsx:156-163 | different schedule keys are shown under different names |
| `PrayerTimes.FindCity` | components/prayer-times-modal.tsx:195 | `find` returns the first city with the id, and returns nothing exactly when no city has it |
| `PrayerTimes.DisplayedCityName` | components/prayer-times-modal.tsx:195-196 | the displayed name is never empty; it is the name of a city with the selected id, and "Jakarta" when no city has that id |
| `PrayerTimes.DisplayedNameOfListedCity` | components/prayer-times-modal.tsx:195-196 | selecting the listed city at any position displays that city's own name |
| `PrayerTimes.InitialSelection` | components/prayer-times-modal.tsx:37 | the dialog opens on "jakarta", showing "Jakarta" and Jakarta's schedule |
| `KiblatCompass.Normalize` | app/kompas/kiblat/kiblatCompass.tsx:38 | `(q + 360) % 360` with a truncating `%` lies strictly between −360 and 360, is non-negative once q ≥ −360, and differs from q by a whole number of turns |
| `KiblatCompass.NormalizeRange` | app/kompas/kiblat/kiblatCompass.tsx:38 | for a bearing in [−180, 180], `(q + 360) % 360` lies in [0, 360); it is q itself when q ≥ 0 and q + 360 otherwise |
| `KiblatCompass.NextHeading` | app/kompas/kiblat/kiblatCompass.tsx:46-49 | an event without `alpha` keeps the heading; an event with one always yields a heading, and from a known heading the new one lies between the old heading and the reading |
| `KiblatCompass.Track` | app/kompas/kiblat/kiblatCompass.tsx:45-51 | after a stream of events the heading is unknown exactly when it started unknown and no event carried `alpha` |
| `KiblatCompass.NullSampleKeepsHeading` | app/kompas/kiblat/kiblatCompass.tsx:46-47 | an event without `alpha` leaves the heading unchanged |
| `KiblatCompass.FirstSampleInitializes` | app/kompas/kiblat/kiblatCompass.tsx:48 | from no heading, a reading sets the heading to the raw value |
| `KiblatCompass.SmoothingStep` | app/kompas/kiblat/kiblatCompass.tsx:48 | from a non-zero heading h, reading a gives 0.8·h + 0.2·a |
| `KiblatCompass.ZeroHeadingIsAbsent` | app/kompas/kiblat/kiblatCompass.tsx:48 | a stored heading of exactly 0 behaves as no heading: the next heading is the raw reading |
| `KiblatCompass.NextHeadingInRange` | app/kompas/kiblat/kiblatCompass.tsx:48 | a heading and a reading in [0, 360] give a heading in [0, 360] |
| `KiblatCompass.TrackInRange` | app/kompas/kiblat/kiblatCompass.tsx:45-51 | over any stream of in-range readings the heading stays in [0, 360] |
| `KiblatCompass.ConstantStreamIsFixed` | app/kompas/kiblat/kiblatCompass.tsx:48 | a stream that keeps reading c leaves the heading at c after the first reading |
| `KiblatCompass.NoWrapAround` | app/kompas/kiblat/kiblatCompass.tsx:48 | 350 followed by 10 smooths to 282: no circular wrap is applied |
| `KiblatCompass.ZeroThenNinety` | app/kompas/kiblat/kiblatCompass.tsx:48 | 0 followed by 90 gives 90, because the stored 0 counts as absent |
| `KiblatCompass.NeedleRotation` | app/kompas/kiblat/kiblatCompass.tsx:64-71 | a needle angle exists iff heading and bearing are both known, and then heading + angle = bearing |
| `KiblatCompass.Compass.constructor` | app/kompas/kiblat/kiblatCompass.tsx:18-19 | heading and bearing both start unknown |
| `KiblatCompass.Compass.UpdateQibla` | app/kompas/kiblat/kiblatCompass.tsx:23-40 | the bearing stays as it was while the location is unknown; otherwise it becomes the normalised raw bearing, which lies in [0, 360) |
| `KiblatCompass.Compass.HandleOrientation` | app/kompas/kiblat/kiblatCompass.tsx:45-51 | one orientation event updates the stored heading as `NextHeading` prescribes |
| `KiblatCompass.Compass.Needle` | app/kompas/kiblat/kiblatCompass.tsx:64-71 | the needle effect has an angle to apply iff both state values are known |

## Left out

- Great-circle trigonometry (app/kompas/kiblat/kiblatCompass.tsx:26-36): `sin`, `cos`, `tan`, `atan2` and the degree/radian conversions are floating-point transcendental functions. `Compass.UpdateQibla` takes the raw bearing as a function parameter whose values are assumed to lie in [−180, 180], the range of `atan2` in degrees.
- IEEE-754 rounding: all compass arithmetic, the moving average included, is exact over `real`.
- Geolocation (app/kompas/kiblat/page.tsx), the orientation-event subscription and its cleanup, the "sensor unsupported" error message, and the permission flow: platform I/O and event plumbing.
- The DOM write of the needle transform and the `compassRef.current` null check (app/kompas/kiblat/kiblatCompass.tsx:66,72): rendering.
- The remote fetch of the chapters, its error path and the loading flags (components/surah-list.tsx:41-58). The timer, loading flag and date input of the prayer-times dialog, and its other state setters (`handleCitySelect`): asynchronous I/O and presentation.
- React's effect scheduling: `SurahListView.Refresh` is the effect body, called explicitly after a state change. The re-render batching that triggers it is not modelled.
- `toLowerCase` is modelled on ASCII letters only and `localeCompare` as a code-point lexicographic order, because Unicode case mapping and locale collation are foreign library semantics.
- `Array.prototype.sort` is modelled as a stable insertion sort, as ECMAScript 2019 and later require of the built-in sort. The engine's own algorithm and its number of comparator calls are not modelled.
- Chapter numbers and verse counts are natural numbers, so `String(nomor)` is the plain decimal text. Negative or fractional numbers from the API are not modelled.
- `FormatTimeOf`: negative, `NaN` and infinite times are not modelled. The page starts both `currentTime` and `duration` at 0 (app/surah/[id]/page.tsx:74-75) and sets `duration` only when the audio metadata has loaded (app/surah/[id]/page.tsx:120-123), so before that the header shows `0:00`. A streamed recording can report an infinite duration, which the source prints as `Infinity:NaN:NaN`.
- `HeaderView.HandleScroll` takes `window.pageYOffset` as a parameter. The unused `prevScrollPos` state and `timeout` variable (components/surah-header.tsx:28,32) are not modelled.
- `ScheduleFor` and `FormatPrayerName` treat their tables as finite maps. A JavaScript object lookup would also find inherited members for keys such as "constructor", but the dialog only ever passes listed city ids and the six schedule keys.
- The `console.log` calls in `handleSort` (components/surah-list.tsx:93-99), the JSX markup, the theme and the decorative components.
