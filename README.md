# Household-expense front end: month helpers, selectable years, navigation guard

This project models the three pieces of self-contained logic in a small Vue/Firebase
expense-tracking front end, and proves what they promise:

- **Calendar months** (`Clock`, file `clock.dfy`): the twelve `(year, month)` pairs of a year,
  whether a month lies after the current month, and whether a year has any month that is
  not in the future. The current month, read once from the wall clock in the source, is the
  explicit parameter `now`.
- **Selectable years** (`Settings`, file `settings.dfy`): the settings store's list of years
  offered to the user, newest first, from the current year back `yearsBack` years, with the
  JavaScript `yearsBack || 3` fallback. The setting is `Option<nat>`: `None` is a missing
  setting, and `Some(0)` is the falsy zero. A list too long for a JavaScript array is the
  `RangeError` result, as `Array.from` throws it.
- **Navigation guard** (`Router`, file `router.dfy`): the route table, the records a path
  matches (under the router's default matching, which ignores letter case and accepts a
  trailing slash), and the guard's choice between redirecting to `/login`, redirecting to `/`, and
  letting the navigation through. The matched records are a sequence of flag pairs, and the
  signed-in user is a boolean.
- **`Array.prototype.some`** (`Arrays`, file `arrays.dfy`): both the month helpers and the
  guard use it. It is defined once, as a front-to-back scan, and proved equal to "some index
  satisfies the predicate".

`src/stores/categories.ts:13` only wraps a statically loaded list, so it has no logic to model.

## Model

| member | source | states |
|---|---|---|
| Arrays.Any | src/clock.ts:20 | `some` is false on an empty array, and true as soon as the first element satisfies the predicate |
| Arrays.AnyIff | src/clock.ts:20 | `some` holds exactly when some element satisfies the predicate (both directions) |
| Clock.Now | src/clock.ts:3 | the current month is a valid month 1..12: the clock's zero-based month plus one, in the clock's year |
| Clock.MonthsForYear | src/clock.ts:5-7 | exactly 12 entries, every one in the given year, the i-th (0-based) being month i+1 |
| Clock.MonthsForYearExactly | src/clock.ts:5-7 | a pair is an entry iff it is in the given year and its month is within 1..12 |
| Clock.MonthsForYearAscending | src/clock.ts:6 | months are strictly ascending, so no month is listed twice |
| Clock.IsFuture | src/clock.ts:14-18 | a later year is always future, an earlier year never, and in the same year it is future iff the month is later |
| Clock.IsFutureIsLexAfter | src/clock.ts:14-18 | `isFuture` is exactly the lexicographic order of `[year, month]` after `now`, against an independent recursive lexicographic comparison |
| Clock.IsFutureIsLaterMonthNumber | src/clock.ts:14-18 | for valid months, `isFuture` is exactly a larger running month number `12*year + month - 1` |
| Clock.CurrentYearFutureMonths | src/clock.ts:5-18 | in the current year, the entry at index i is future iff i >= the current month, so the future months are a suffix |
| Clock.Visible | src/clock.ts:20 | the callback `ym => !isFuture(ym)` holds exactly for months in an earlier year, or in the current year up to and including the current month |
| Clock.HasVisibleMonths | src/clock.ts:20 | true iff some month number 1..12 of the year is not in the future |
| Clock.HasVisibleMonthsIff | src/clock.ts:20 | given a current month of at least 1, a year has a non-future month iff it is not after the current year |
| Clock.HasVisibleMonthsAtClock | src/clock.ts:3-20 | with `now` built from the clock's year and zero-based month, a year has a non-future month iff it is not after the clock's year |
| Settings.EffectiveYearsBack | src/stores/settings.ts:23 | the result is positive: a positive setting is kept, and a missing or zero setting becomes 3 |
| Settings.AvailableYears | src/stores/settings.ts:21-25 | a RangeError iff the effective years-back plus 1 exceeds the array limit 2^32 - 1; otherwise the length is the effective years-back plus 1, the first entry is the current year, the last is the current year minus the effective years-back, and each step goes back exactly one year |
| Settings.AvailableYearsAt | src/stores/settings.ts:24 | when the list is built, entry i is `currentYear - i` |
| Settings.AvailableYearsDecreasing | src/stores/settings.ts:24 | when the list is built, it is strictly decreasing: an earlier position holds a later year |
| Settings.AvailableYearsMembers | src/stores/settings.ts:23-24 | when the list is built, a year is offered iff it lies between `currentYear - effective` and `currentYear`, so none exceeds the current year |
| Settings.FalsyYearsBackFallsBack | src/stores/settings.ts:23 | a missing setting, 0 and 3 give the same list of four years |
| Router.Routes | src/router/index.ts:7-20 | two routes: `/` requires auth and `/login` requires a guest, and no route is flagged both ways |
| Router.Matched | src/router/index.ts:7-20 | the matched records are at most the table's records, and a record is matched iff some route whose path matches carries it; matching ignores ASCII letter case and accepts one trailing slash, as the router does by default |
| Router.RequiresAuth | src/router/index.ts:34 | true iff some matched record requires auth |
| Router.RequiresGuest | src/router/index.ts:35 | true iff some matched record requires a guest |
| Router.Guard | src/router/index.ts:34-45 | redirect to /login iff no user and some record requires auth; redirect to / iff a user and some record requires a guest; proceed iff neither; exactly one decision |
| Router.AuthCheckFirst | src/router/index.ts:37-42 | with a record flagged both ways and no user, the decision is /login, never / |
| Router.NoRedirectWithinOwnSide | src/router/index.ts:37-45 | a user is never sent to /login and a visitor never to /; a user proceeds on a route with no guest flag, and a visitor on a route with no auth flag |
| Router.MatchedRoutes | src/router/index.ts:7-20 | `/` matches only the dashboard's auth-only record and `/login` only the login page's guest-only record |
| Router.LoginSpellingsMatch | src/router/index.ts:14-19 | `/login/`, `/LOGIN` and `/Login/` match only the login record, so a signed-in user there is redirected to / |
| Router.RedirectIsStable | src/router/index.ts:7-45 | every redirect target is a route in the table, and navigating there with the same user state proceeds, so the guard cannot loop |

## Left out

- `getMonthName` (src/clock.ts:9-12) and `formatCurrency` (src/currency.ts:1-7): these format text through `Intl` by locale, and currency is a floating-point amount.
- Reading the wall clock (`new Date()` in src/clock.ts:3 and src/stores/settings.ts:22): the current year and month are parameters. `Clock.Now` models only the `getMonth() + 1` shift.
- `getCurrentUser` and the `onAuthStateChanged` subscription (src/router/index.ts:24-31), and src/stores/auth.ts: these are asynchronous authentication listeners. The guard receives "a user is signed in" as a boolean.
- The YAML-loaded `appSettings` and `userSettings` (src/stores/settings.ts:19, 27) and the category list (src/stores/categories.ts:13): these only load static data and contain no logic.
- src/firebase.ts, src/main.ts, vite.config.ts, env.d.ts and src/expenses.ts: these hold SDK setup, application bootstrapping, translation tables, build configuration and a type declaration.
- Settings.EffectiveYearsBack: negative, fractional or non-numeric `yearsBack` values are not modelled. For those values the source depends on how `Array.from` coerces the length. The setting is a natural number or missing.
- Router.Matched: this models the router library's matching only for this flat table of static paths, on the path part of a location. Nested routes, parameters and unknown-path fallbacks do not occur in the table. Case is folded for ASCII letters only; the library's case-insensitive match also folds other letters. A route `meta` without a flag reads that flag as false, which is the truthiness the guard's `some` applies.
