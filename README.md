# fullbrand-shows: the booking rules, modelled in Dafny

fullbrand-shows is a small Next.js tool a music agency uses to book shows
for its two artists, JEYF and El Gudi. Beneath the pages and the Supabase
calls sit a few rules. This project models those rules and proves what they
promise:

- the **dashboard** figures (`computeMetrics`): number of shows, shows still
  ahead, money collected, mean travel distance, the per-artist split and the
  "next 8 shows" list;
- the **distance endpoint** `POST /api/distance`: the chain of guards in
  front of the Google Routes API, and the metres-to-kilometres rounding;
- the **show list**: the artist tab, search box and month filter, and the
  role-gated money totals, which the page sums in a loop;
- the **new-show form**: `safeNum`, `isValid`, the payload `save` inserts,
  the body of the distance request, and the form updates made when a place
  is picked, when the address is typed by hand and when the distance comes
  back.

Files and modules:

| file | module | contents |
|---|---|---|
| `wrappers.dfy` | `Wrappers` | `Option`: `null`/`undefined` or a value |
| `js_string.dfy` | `JsString` | `trim`, `toLowerCase`, `includes`, `startsWith`, `split`, `replace(/,/g, "")` |
| `js_number.dfy` | `JsNumber` | JavaScript numbers, `Number(text)` on decimal text, `String(km)` |
| `seqs.dfy` | `Seqs` | `filter`, `map`, `slice(0, n)`, sums, subsequences, order-independence |
| `show_row.dfy` | `Shows` | the `shows` row the dashboard and the list compute with |
| `dashboard.dfy` | `Dashboard` | `app/dashboard/page.tsx` |
| `distance_route.dfy` | `DistanceRoute` | `app/api/distance/route.ts` |
| `shows_list.dfy` | `ShowsList` | `app/shows/page.tsx` |
| `new_show.dfy` | `NewShow` | `app/shows/new/page.tsx` |

Modelling choices:

- A JavaScript number is `Finite(real)` or `NonFinite`. `NonFinite` covers
  NaN and both infinities, and adding it to anything gives `NonFinite`.
  Arithmetic is exact, so sums do not depend on their order.
- A numeric column is `Option<Number>`. `None` stands for SQL `null` and for
  a column the query did not select.
- A day is the triple that `new Date(y, m - 1, d)` receives: the year, the
  month counted from 0 and the day, each cut to its integer part, with years
  0 to 99 read as 1900 to 1999. Days compare lexicographically, and
  "today" (`startOfToday()`) is a parameter.
- Kilometres are kept as an integer number of hundredths. The endpoint
  computes `Math.round((meters / 1000) * 100)` in doubles; the model rounds
  `meters / 10` half up in exact arithmetic.
- The endpoint is a function of the request body, the server's API key and
  the provider's reply. It returns the response and the request it would
  send to Google, if any. The body of a `fetch` that throws, and of a reply
  that is not JSON, is an input value.
- The totals on the show list are written as a method with a `while` loop,
  as the page writes them. The loop is proved equal to a running-sum
  function, and that function is proved equal to the dashboard's sum.
- Form updates and the insert payload are functions on datatype values.
  The page builds them as record copies (`{...prev, ...}`).

## Model

| member | source | states |
|---|---|---|
| `Dashboard.Safe` | app/dashboard/page.tsx:37-40 | `safe` keeps a finite number; null, undefined, NaN and the infinities give 0 |
| `Dashboard.ParseDate` | app/dashboard/page.tsx:41-47 | a null or empty date string parses to null |
| `Dashboard.ParseDateDigits` | app/dashboard/page.tsx:41-47 | three non-zero digit groups joined by '-' parse to exactly that day, with the month counted from 0 and years 0-99 read as 19xx |
| `Dashboard.ParseDateRejects` | app/dashboard/page.tsx:41-45 | null when there are fewer than three pieces, when a piece is blank (`Number("")` is 0), or when a piece is all zero digits |
| `Dashboard.UnusablePartRejects` | app/dashboard/page.tsx:44-45 | any of year, month or day that is 0 or not a finite number makes the parse null |
| `Dashboard.ParseDateNonNegative` | app/dashboard/page.tsx:44-46 | the pieces come from splitting at '-', so a parsed day never has a negative component |
| `Dashboard.UpcomingBoundary` | app/dashboard/page.tsx:57-60 | a show dated y-m-d (any non-zero digit groups, the 1st of a month included) counts as upcoming exactly while today is on or before that day, and not on any later day; a show without a date never does |
| `Dashboard.UpcomingCountsExactly` | app/dashboard/page.tsx:57-60 | `upcoming` counts each row exactly as often as it occurs when it is upcoming, and not at all otherwise |
| `Dashboard.ComputeMetrics` | app/dashboard/page.tsx:53-70 | `totalShows` is the number of rows, `upcoming` is at most `totalShows`, `kmAvg` is never negative |
| `Dashboard.MoneySumAppend` | app/dashboard/page.tsx:62-64 | a money sum over two batches of rows is the sum of the two sums |
| `Dashboard.MoneySumIgnoresUnusable` | app/dashboard/page.tsx:62-64 | a null or non-finite amount adds nothing to `ingresos`, `adelantos` or `viaticos` |
| `Dashboard.KmAvgSign` | app/dashboard/page.tsx:66-67 | `kmAvg` is at least 0, and positive exactly when some row has a positive distance |
| `Dashboard.KmAvgIgnoresNonPositive` | app/dashboard/page.tsx:66-67 | a zero, negative, null or non-finite distance is in neither the numerator nor the denominator: adding such a row leaves the values and the mean unchanged |
| `Dashboard.KmAvgBounds` | app/dashboard/page.tsx:66-67 | the mean is 0 when no distance is positive, and otherwise lies between the smallest and the largest positive distance |
| `Dashboard.MetricsExample` | app/dashboard/page.tsx:53-70 | distances 100, 0, null and 50 average to 75; costs null, NaN and 500 sum to 500 |
| `Dashboard.MetricsIgnoreOrder` | app/dashboard/page.tsx:53-70 | two arrangements of the same rows have the same metrics |
| `Dashboard.PartitionsDisjoint` | app/dashboard/page.tsx:139-140 | no row is in both the JEYF and the ELGUDI list |
| `Dashboard.PartitionsAddUp` | app/dashboard/page.tsx:139-144 | the JEYF, ELGUDI and no-artist rows together have as many rows, and the same money sums, as all rows |
| `Dashboard.ArtistMetricsAddUp` | app/dashboard/page.tsx:139-144 | the two artist cards count at most `totalShows`, and their `ingresos` plus the no-artist rows' sum is the overall `ingresos` |
| `Dashboard.UpcomingTop8` | app/dashboard/page.tsx:247-252 | the "next shows" list has at most 8 rows |
| `Dashboard.UpcomingTop8Spec` | app/dashboard/page.tsx:247-252 | the list is the first 8 upcoming rows (all of them when fewer), each upcoming, and a subsequence of the query result in its order |
| `DistanceRoute.ChooseDestination` | app/api/distance/route.ts:14-19 | a non-empty place id wins; otherwise a non-empty address; none exactly when both are absent or empty |
| `DistanceRoute.KmHundredths` | app/api/distance/route.ts:59 | km×100 is the integer h with 10h - 5 <= meters < 10h + 5: meters/10 rounded half up |
| `DistanceRoute.KmHundredthsOfWholeMeters` | app/api/distance/route.ts:59 | for whole metres m >= 0, km×100 is (m + 5) / 10 in integer division |
| `DistanceRoute.KmHundredthsExamples` | app/api/distance/route.ts:59-60 | 0 m → 0 km, 1000 m → 1 km, 1234 m → 1.23 km, 12345 m → 12.35 km |
| `DistanceRoute.Post` | app/api/distance/route.ts:3-64 | a request goes out only for a parsed body and a non-empty key, and it always carries the fixed URL, origin, DRIVE, METRIC, the `routes.distanceMeters` field mask, the server's key and the chosen destination |
| `DistanceRoute.PostSendsIff` | app/api/distance/route.ts:5-43 | Google is called exactly when the body parsed, the key is set and a destination was given |
| `DistanceRoute.PostMissingKey` | app/api/distance/route.ts:7-10 | a missing or empty key gives 500 before the destination is looked at and before any call, even for a body without a destination |
| `DistanceRoute.PostMalformedBody` | app/api/distance/route.ts:4-10 | a body that is not JSON gives "Server error" (500) whether or not the key is set |
| `DistanceRoute.PostMissingDestination` | app/api/distance/route.ts:21-26 | with the key set and no usable destination: 400 "Manda destinationPlaceId o destinationAddress", nothing sent |
| `DistanceRoute.PostAfterSending` | app/api/distance/route.ts:45-63 | after the call: not OK gives "Google Routes API error" with the provider's status and body; OK without a numeric `distanceMeters` gives "No llegó distanceMeters"; a throwing fetch or unparsable reply gives "Server error"; otherwise the metres come back with their km |
| `DistanceRoute.PostSucceedsIff` | app/api/distance/route.ts:47-60 | `{km, meters}` is returned exactly when every guard passed; `meters` is the provider's value unchanged and km is it rounded |
| `ShowsList.Filtered` | app/shows/page.tsx:164-178 | a row is listed exactly when it is a row of the query and passes the tab, text and month filters; the list is no longer than the query result |
| `ShowsList.FilteredIsSubsequence` | app/shows/page.tsx:164-178 | the list is the query result with rows left out, in the same order |
| `ShowsList.TabSemantics` | app/shows/page.tsx:167 | "ALL" accepts every row; an artist tab accepts exactly that artist's rows |
| `ShowsList.SearchSemantics` | app/shows/page.tsx:165-172 | an empty or blank search matches every row; otherwise a row matches exactly when the lower-cased trimmed search occurs in its lower-cased event name, venue or address (null read as "") |
| `ShowsList.DefaultFiltersKeepAll` | app/shows/page.tsx:164-178 | with "ALL", no search and no month the list is every row |
| `ShowsList.FilteredIdempotent` | app/shows/page.tsx:164-178 | filtering the list again with the same choices changes nothing |
| `ShowsList.MoneyRoles` | app/shows/page.tsx:85 | money is shown exactly to a loaded profile whose role is admin or artist: never to staff, never while the profile is loading |
| `ShowsList.ComputeTotals` | app/shows/page.tsx:180-192 | the totals are null exactly for roles other than admin and artist, and otherwise hold the running sums of cost, advance and viáticos over the filtered rows, null as 0 |
| `ShowsList.TotalIsMoneySum` | app/shows/page.tsx:186-190 | a total is finite exactly when every amount is finite or null, and then it equals the dashboard's sum of that column |
| `NewShow.SafeNum` | app/shows/new/page.tsx:55-58 | `safeNum` is the finite number the text means after removing commas and trimming, null otherwise |
| `NewShow.SafeNumOfFinite` | app/shows/new/page.tsx:55-58 | text without commas that reads as a finite number is saved as that number |
| `NewShow.SafeNumBlank` | app/shows/new/page.tsx:56-57 | text that is empty after comma removal and trimming gives 0, not null |
| `NewShow.SafeNumThousands` | app/shows/new/page.tsx:56 | digits split by a comma ("50,000") read as the digits joined (50000) |
| `NewShow.RemoveCommasSplice` | app/shows/new/page.tsx:56 | removing the comma between two comma-free texts joins them |
| `NewShow.EmptyToNull` | app/shows/new/page.tsx:287 | an optional text is stored as null exactly when it is the empty string, and otherwise as it is |
| `NewShow.TrimToNull` | app/shows/new/page.tsx:284 | a free-text field is stored as null exactly when it is blank, and otherwise as the trimmed text, non-empty with no white space at either end |
| `NewShow.Save` | app/shows/new/page.tsx:271-303 | nothing is saved unless the date is set and the trimmed name has at least 2 characters; then the date, artist, type and hospitality are copied, the name is trimmed, venue, address, hotel and notes are their trimmed text or null when that is empty, place id and closing date are null exactly when empty and copied otherwise, coordinates, km, cost, advance and viáticos are `safeNum` of their text, and the room count is null when empty and `Number` of its text otherwise |
| `NewShow.IsValidCases` | app/shows/new/page.tsx:106-108 | a form without a date, or whose event name is only white space, is not valid, and trimming the name never changes validity |
| `NewShow.SaveKeepsTrimmedText` | app/shows/new/page.tsx:284 | a venue typed without white space at the ends is stored exactly as typed |
| `NewShow.InitialFormInvalid` | app/shows/new/page.tsx:80-108 | the form as the page opens cannot be saved |
| `NewShow.KmRequestBody` | app/shows/new/page.tsx:119-122 | the request carries the place id itself when it is non-empty, and the address itself only when there is no place id and the address is non-empty |
| `NewShow.KmRequestAccepted` | app/shows/new/page.tsx:119-122 | with the key set, the endpoint never answers a form request for a non-empty place or address with the 400, and it asks Google for the place id if there is one, else for the address |
| `NewShow.PickPlace` | app/shows/new/page.tsx:237-257 | a pick sets the place id and clears the km; it keeps the old address and coordinates when the new ones are missing and changes no other field; a distance request is made exactly when the place id or the address is non-empty, with the body above |
| `NewShow.TypeAddress` | app/shows/new/page.tsx:471-478 | typing sets the address and clears the place id and coordinates, changing no other field |
| `NewShow.TypedAddressForgetsPlace` | app/shows/new/page.tsx:471-478 | after a typed address, saving stores no place id and zero coordinates (empty text reads as 0) |
| `NewShow.ApplyKmReply` | app/shows/new/page.tsx:127-135 | the km field is overwritten with `String(km)` only for an OK reply with a km; any other reply leaves the form as it was |
| `NewShow.KmRoundTrip` | app/shows/new/page.tsx:133-134 | the km the endpoint computes is the km that is saved: `safeNum(String(km))` gives back exactly km |
| `JsNumber.KmTextRoundTrip` | app/shows/new/page.tsx:134 | `Number(String(v))` is v for every v that is a whole number h of hundredths, negative ones included |
| `JsString.IncludesIffOccurs` | app/shows/page.tsx:170-172 | `includes` holds exactly when the needle occurs at some position |
| `JsString.TrimEmptyIffBlank` | app/shows/page.tsx:165 | a string trims to "" exactly when it is all white space |
| `JsString.JoinSplit` | app/dashboard/page.tsx:44 | joining the pieces `split` returns, with the same separator, gives the string back |

## Left out

- Supabase: the session check, the profile lookup, the role redirects and
  the `select` and `insert` calls. They are I/O against an external store,
  and row-level security, which is not in this code, decides what comes
  back. The rows, the role and the saved payload are values here.
- The `fetch` calls to Google and to `/api/distance`, and the JSON parsing
  of requests and replies. Replies are inputs. A body field that is a JSON
  value other than a string is not modelled.
- The Google Places autocomplete set-up, including the polling timer, and
  `app/shows/new/AddressAutocomplete.tsx`, which is widget wiring. Its one
  rule (skip an empty address, send the place id) is the `calcKmAuto` rule,
  modelled in `NewShow.KmRequestBody`.
- `app/login/page.tsx` (a pass-through to sign-in), the edit page
  `app/shows/[id]/edit/page.tsx` (it is not part of this model), JSX,
  styles, the `money`/`num` locale formatting, `useMemo`, and the effect
  cancellation flags.
- The error texts `calcKmAuto` shows (`kmErr`) and the loading flags. They
  are display only and leave the form unchanged.
- Setters of the other inputs. Each is a plain one-field copy of the form.
- IEEE-754: amounts and distances are exact reals. Float rounding at an
  exact .5 boundary after `meters / 1000 * 100` is not modelled (1005 m
  gives 100.49999999999999 in doubles, so 1.00 km, where the model gives
  1.01 km), and
  neither are the sizes at which `String()` switches to exponent notation.
- `JsNumber.ToNumber`: only decimal text (sign, digits, one point) is read.
  Exponents, hexadecimal, binary and octal text give `NonFinite`, where
  JavaScript reads them as finite numbers.
- `Dashboard.ParseDate`: the day is not normalised the way `Date` does it
  (2024-02-31 stays day 31 of month 1, not 2 March), and dates beyond the
  `Date` range are not rejected. A component that reads as Infinity gives
  `None`, where the page builds an Invalid Date. The effect is the same,
  because an Invalid Date never counts as upcoming.
- `NewShow.Save`: `isValid` counts characters. JavaScript's `length`
  counts UTF-16 code units, which differ only outside the Basic
  Multilingual Plane.
- `NewShow.PickPlace`: coordinates arrive as the text `String(lat)` and
  `String(lng)` give. Number formatting is not modelled.
- `JsString.ToLower`: only ASCII and Latin-1 capitals are lowered.
  Lower-casing in other scripts is not modelled.
- Concurrency: two overlapping `calcKmAuto` calls can finish in either
  order. The model applies one reply at a time.
