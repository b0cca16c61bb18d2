# MakerDAO CDP search tool: a Dafny model

This project models the core of a small React page that finds MakerDAO
collateralized debt positions (CDPs) of a chosen collateral type ("ilk") near
an approximate CDP id, and the fixed-point helpers it uses to display them.

- `search.dfy`, module `CdpSearch`: one search session of `fetchCdpList`
  (src/components/CdpHomePage.js). The session is a class. Its fields are
  the start id S, the two shared distance counters, the found count, the
  entries the session appended, whether `cdpFound` is resolved, and one slot
  for each of the five chains. Three chains search upward and two downward.
  `AddUp` and `AddDown` are `addTaskToQueueUp` and `addTaskToQueueDown`.
  `Complete(chain, outcome)` is one task finishing. `Refill(chain)` is that
  task's `.then` callback. The constructor sets up the counters, and
  `SeedUp` and `SeedDown` are the two seeding loops. A ghost field records
  every id handed to the queue, in call order. The caller chooses which outstanding task completes next. This turns the event
  loop into a sequence of atomic steps. A task's completion and its `.then`
  are separate steps because other tasks can run between them.
- `homepage.dfy`, module `CdpHomePage`: the leading-edge `debounce` wrapper,
  written as a step function over call and timer-expiry events with a
  `Debouncer` class that implements it, and the click guard of the fetch
  button (`Page.Click`).
- `lib.dfy`, module `Lib`: src/utils/lib.js. This covers wad and rad scaling
  in `formatCollateral` and `formatDebt`, the integer cores of
  `calculateCollateralizationRatio` and `calculateMaxCollateral`, the
  `tokenInfo` table, and `numberWithCommas` as the exact semantics of its
  regular expression.
- `wrappers.dfy`: `Option` and `Result`.

What the session model establishes, with ids as exact integers (see
"## Left out" for ids beyond 2^53):
- Upward ids are S, S+1, S+2, … (positive ones only) and downward ids are
  S-1, S-2, ….
- No id is enqueued twice, and every enqueued id is positive.
- A call that produces a non-positive id ends its chain. Its counter still
  advances.
- There are never more than five outstanding tasks, so the queue's
  concurrency limit of 5 never makes a task wait.
- Empty records and records of other collateral types append nothing.
- A match appends exactly one entry, with the record's id, the selected ilk,
  the collateral unchanged and the debt multiplied by the rate. The found
  count always equals the number of entries appended, and their ids are
  distinct.
- A failed record fetch or a failed rate fetch throws. That task appends
  nothing and its chain ends for good.
- Once 20 matches are found, `cdpFound` is resolved and no chain is refilled.
  Tasks still outstanding may append, so the count can reach 24 but never
  more.

Some consequences of the code that are easy to miss:
- The order in which ids are probed is not one alternating sequence
  S, S+1, S-1, S+2, …. Upward and downward chains run independently and
  share one counter per direction.
- The stop rule does not cap the list at 20 entries. Tasks already
  outstanding when the 20th match arrives still append, so up to 24 entries
  can be produced.
- Nothing cancels outstanding tasks, and no set of dispatched ids is kept.
  Duplicates are avoided only by the two counters.
- An input S of 0 or -1 is not an empty search. Seeding probes the positive
  ids among S, S+1, S+2. Only S <= -2 probes nothing (`SeedingEnqueuesNothing`).
- When every chain ends before 20 matches, `cdpFound` never resolves, so the
  page stays in its loading state and ignores further clicks.

## Model

| member | source | states |
|---|---|---|
| `CdpSearch.UpIds` | src/components/CdpHomePage.js:100-112 | the upward ids after n calls: at most n of them, each positive and in S <= id < S + n |
| `CdpSearch.DownIds` | src/components/CdpHomePage.js:115-126 | the downward ids once the counter is n: at most n of them, each positive and in S - n < id < S |
| `CdpSearch.UpIdsMembership` | src/components/CdpHomePage.js:100-112 | an id was enqueued upward iff it is positive and S <= id < S + distanceUp |
| `CdpSearch.DownIdsMembership` | src/components/CdpHomePage.js:115-126 | an id was enqueued downward iff it is positive and S - distanceDown < id < S |
| `CdpSearch.UpIdsConsecutive` | src/components/CdpHomePage.js:100-112 | upward ids are max(S,1), max(S,1)+1, … in call order, one per positive distance |
| `CdpSearch.DownIdsConsecutive` | src/components/CdpHomePage.js:115-126 | downward ids are S-1, S-2, … down to the last positive one, in call order |
| `CdpSearch.NoIdTwice` | src/components/CdpHomePage.js:62-64 | the ids enqueued by both directions together have no duplicates and are all positive |
| `CdpSearch.WindowIsIssued` | src/components/CdpHomePage.js:101-125 | the arithmetic window used by the session invariant is exactly the set of enqueued ids |
| `CdpSearch.SeedingEnqueuesNothing` | src/components/CdpHomePage.js:128-135 | the seeding loops enqueue nothing upward iff S <= -2 and nothing downward iff S <= 1 |
| `CdpSearch.Process` | src/components/CdpHomePage.js:68-97 | classification of one task: a null record, or a null rate for a matching non-empty record, throws; an empty record or another ilk is skipped; otherwise one entry is produced with the id, the selected ilk, the collateral and debt × rate |
| `CdpSearch.Outstanding` | src/components/CdpHomePage.js:65 | the number of outstanding tasks is at most the number of chains |
| `CdpSearch.OutstandingWithFreeSlot` | src/components/CdpHomePage.js:104-122 | a chain with no task outstanding leaves room, so its refill keeps the count of outstanding tasks within the chain count |
| `CdpSearch.EnqueueUp` | src/components/CdpHomePage.js:101-111 | the next upward id lies outside the ids enqueued so far, so appending it keeps them distinct and filling the grown window |
| `CdpSearch.EnqueueDown` | src/components/CdpHomePage.js:116-125 | the same for the next downward id |
| `CdpSearch.Session.constructor` | src/components/CdpHomePage.js:60-65 | the counters start at 0 and 1, nothing is found or enqueued, no chain is seeded, and the invariant holds |
| `CdpSearch.Session.SeedUp` | src/components/CdpHomePage.js:128-131 | after the first loop the up chains hold S, S+1, S+2, each only if positive, the up counter is 3, the queue has received exactly UpIds(S, 3), and the down chains are untouched |
| `CdpSearch.Session.SeedDown` | src/components/CdpHomePage.js:133-135 | after the second loop the down chains hold S-1, S-2, each only if positive, the down counter is 3, the queue has further received exactly DownIds(S, 3), and the up chains are untouched |
| `CdpSearch.Session.AddUp` | src/components/CdpHomePage.js:100-112 | enqueues S + distanceUp on the chain if positive, else ends the chain; the counter advances by exactly one; the upward history and the queue's history grow by exactly that id; nothing else changes; the invariant is kept |
| `CdpSearch.Session.AddDown` | src/components/CdpHomePage.js:115-126 | enqueues S - distanceDown on the chain if positive, else ends the chain; the counter advances by exactly one; the downward history and the queue's history grow by exactly that id; nothing else changes |
| `CdpSearch.Session.Complete` | src/components/CdpHomePage.js:68-97 | the outstanding task's verdict is Process of its id; a throw ends the chain, anything else leaves it waiting for `.then`; the list grows by the one matched entry or not at all, and the count grows by the same amount |
| `CdpSearch.Session.Refill` | src/components/CdpHomePage.js:104-122 | below 20 matches the chain is refilled in its own direction; at 20 or more it ends and no counter moves |
| `CdpSearch.OutstandingWithinConcurrency` | src/components/CdpHomePage.js:65 | no more than 5 tasks are outstanding, the queue's concurrency |
| `CdpSearch.FoundBound` | src/components/CdpHomePage.js:94-122 | the found count never exceeds 24; once it is 20 or more, the count plus the outstanding tasks stays within 24 |
| `CdpSearch.EnqueuedOnce` | src/components/CdpHomePage.js:100-126 | in every reachable state the ids handed to the queue have no duplicates, are positive, are all in UpIds or DownIds and are as many as those together |
| `CdpSearch.AppendedDistinct` | src/components/CdpHomePage.js:81-91 | every appended entry has a positive, enqueued id and the selected ilk, and no two entries share an id |
| `CdpHomePage.Step` | src/components/CdpHomePage.js:17-27 | a call invokes func iff no timer is pending and always sets a fresh timer; only the expiry of the pending timer clears it |
| `CdpHomePage.BurstInvokesOnce` | src/components/CdpHomePage.js:20-26 | a run of calls with no expiry invokes func exactly once if no timer was pending, else never, and leaves a timer pending |
| `CdpHomePage.OnlyExpiryReArms` | src/components/CdpHomePage.js:23-26 | while a timer is pending, expiries of earlier (cleared) timers never let a call invoke func |
| `CdpHomePage.ExpiryReArms` | src/components/CdpHomePage.js:24-26 | after the pending timer fires, the next call invokes func |
| `CdpHomePage.Debouncer.constructor` | src/components/CdpHomePage.js:16 | a fresh wrapper has no timer |
| `CdpHomePage.Debouncer.Call` | src/components/CdpHomePage.js:17-27 | the wrapper's new state and whether func ran are exactly Step of a call |
| `CdpHomePage.Debouncer.Expire` | src/components/CdpHomePage.js:24-26 | the timer fires only if it is the pending one; the new state is Step of the expiry |
| `CdpHomePage.Page.constructor` | src/components/CdpHomePage.js:56-57 | the page starts not loading with an empty list |
| `CdpHomePage.Page.Click` | src/components/CdpHomePage.js:148-153 | while loading a click changes nothing; otherwise the list is cleared and the debounced fetch is called, and loading is set iff the call got through |
| `CdpHomePage.Page.SearchFinished` | src/components/CdpHomePage.js:138-143 | after cdpFound resolves, loading is cleared and the list is kept |
| `Lib.Pow10Add` | src/utils/lib.js:54 | 10^(a+b) = 10^a · 10^b |
| `Lib.ScalesArePowersOfTen` | src/utils/lib.js:54 | the wad, ray and rad divisors are 10^18, 10^27 and 10^45 |
| `Lib.RadIsWadTimesRay` | src/utils/lib.js:58-60 | a rad is a wad times a ray |
| `Lib.Quotient` | src/utils/lib.js:55 | BigInt division of non-negative operands is the truncated quotient: q·b <= a < (q+1)·b |
| `Lib.QuotientUnique` | src/utils/lib.js:55 | the truncated quotient is unique |
| `Lib.QuotientAtLeast` | src/utils/lib.js:71 | a truncated quotient is at least t iff the dividend is at least t·b |
| `Lib.CollateralHundredths` | src/utils/lib.js:53-56 | the exact part of formatCollateral is collateral·100 / 10^18, truncated: hundredths of a token |
| `Lib.DebtHundredths` | src/utils/lib.js:58-62 | the exact part of formatDebt is debt·100 / 10^45, truncated |
| `Lib.DebtAtUnitRate` | src/utils/lib.js:58-62 | a raw debt times a rate of one ray formats exactly like the raw debt as collateral, which justifies the 10^45 divisor |
| `Lib.TokenInfo` | src/utils/lib.js:28-41 | the table has an entry iff the ilk is ETH-A, WBTC-A or USDC-A, with a positive price and a ratio above 100% |
| `Lib.TokenTable` | src/utils/lib.js:9-15 | prices 2210, 43673, 1 and liquidation ratios 14500, 14500, 10100 basis points |
| `Lib.CollateralizationRatioBp` | src/utils/lib.js:64-73 | 0 when debt is 0, even for an unknown ilk; otherwise an error for an unknown ilk, else the truncated collateral·price·10^27·10000 / debt |
| `Lib.RatioMonotoneInCollateral` | src/utils/lib.js:68-71 | for fixed debt and ilk, more collateral never gives a lower ratio |
| `Lib.RatioAtLeast` | src/utils/lib.js:68-71 | the ratio is at least t basis points iff collateral·price·10^27·10000 >= t·debt |
| `Lib.MaxCollateral` | src/utils/lib.js:75-80 | 0 for a zero ratio; otherwise collateral·10000 / ratio, truncated |
| `Lib.MaxCollateralAtMostCollateral` | src/utils/lib.js:77-79 | for a ratio of at least 10000 basis points the result never exceeds the collateral |
| `Lib.MaxCollateralForKnownTokens` | src/utils/lib.js:75-80 | with a ratio from the table the result is below the collateral unless the collateral is 0 |
| `Lib.DigitRun` | src/utils/lib.js:83 | the longest run of digits from a position, as `(\d{3})+(?!\d)` sees it |
| `Lib.NumberWithCommas` | src/utils/lib.js:82-84 | a comma is inserted before each position where `\B(?=(\d{3})+(?!\d))` matches the original string (`CommaAt`), and nothing else changes: deleting the commas from the output gives the input with its own commas deleted, for any string |
| `Lib.DigitsRoundTrip` | src/utils/lib.js:82-84 | for a digit string, deleting the commas from the output gives back the input |
| `Lib.DigitsCommaAt` | src/utils/lib.js:83 | in a digit string the pattern matches exactly at inner positions a multiple of 3 from the end |
| `Lib.ShortDigitsUnchanged` | src/utils/lib.js:82-84 | a digit string of at most 3 digits is returned unchanged |
| `Lib.DigitsGrouping` | src/utils/lib.js:82-84 | for a non-empty digit string the output has n + (n-1)/3 characters, and its commas are exactly every fourth character from the end, so there is no leading or trailing comma, the first group has 1 to 3 digits and each later group 3 |
| `Lib.DecimalGrouping` | src/utils/lib.js:82-84 | for a number with at most two decimals, only the integer part is grouped |

## Left out

- The remote calls `getCdpInfo` and `ilks`, and `bytesToString`/`stringToBytes`: a record is an ilk string with collateral and debt integers, and a rate is an integer or a failure (`Outcome`). Web3's own value types are not modelled; the amounts are taken to be BigInts.
- p-queue and real promise execution: completions are steps the caller chooses. Since at most five tasks are ever outstanding, the queue's waiting line is never used and is not modelled.
- Ids are exact integers. The source computes `Number(roughCdpId) + searchDistanceUp` and `Number(roughCdpId) - searchDistanceDown` in doubles, which are exact only up to 2^53. Beyond that it rounds, so it probes some ids twice and skips others. For S = 2^53 - 1, for example, it enqueues 2^53 at distances 1 and 2. Every statement about ids below holds for the source only while S + distanceUp and S stay at most 2^53.
- CdpSearch.UpIds: the ids are exact sums; the source's rounded sums above 2^53 are not modelled.
- CdpSearch.DownIds: the ids are exact differences; the source's rounded differences above 2^53 are not modelled.
- CdpSearch.UpIdsMembership: holds for the source only while S + distanceUp <= 2^53.
- CdpSearch.DownIdsMembership: holds for the source only while S <= 2^53.
- CdpSearch.UpIdsConsecutive: holds for the source only while S + distanceUp <= 2^53; beyond it the upward ids repeat and skip.
- CdpSearch.DownIdsConsecutive: holds for the source only while S <= 2^53.
- CdpSearch.NoIdTwice: holds for the source only while S + distanceUp <= 2^53; beyond it rounding enqueues the same id twice.
- CdpSearch.WindowIsIssued: the window equals the set of enqueued ids only while ids are exact, below 2^53.
- CdpSearch.EnqueuedOnce: holds for the source only while ids are exact, below 2^53.
- CdpSearch.EnqueueUp: the next upward id is new only while it is exact, at most 2^53.
- CdpSearch.EnqueueDown: the next downward id is new only while S is at most 2^53.
- CdpSearch.AppendedDistinct: distinct entry ids hold for the source only below 2^53, where each id is probed at most once.
- CdpSearch.Session.constructor: S is an integer; the double S = Number(roughCdpId) is not modelled.
- CdpSearch.Session.SeedUp: the seeded ids S, S+1, S+2 are what the source computes only while S + 2 <= 2^53.
- CdpSearch.Session.SeedDown: the seeded ids S-1, S-2 are what the source computes only while S <= 2^53.
- CdpSearch.Session.AddUp: enqueues the exact S + distanceUp, which the source rounds above 2^53.
- CdpSearch.Session.AddDown: enqueues the exact S - distanceDown, which the source rounds above 2^53.
- `Number(roughCdpId)` on non-integer or non-numeric input: S is an integer. `NaN` enqueues nothing, the same effect as S <= -2. Fractional ids are not modelled.
- The session's list and the page's list are one piece of React state in the source. Here the session keeps the entries it appended itself. Tasks of a resolved search that append after a later click has cleared the list are not modelled.
- `useCallback` re-creates the debounced function when the inputs change. The model keeps one `Debouncer` per page.
- Real `setTimeout`/`clearTimeout` and the 500 ms delay: expiry is an event, and there is no clock.
- Console logging, `setFoundCdpCount` (the count is the `found` field), rendering, CSS and the display sort on line 179.
- CdpHomePage.js `fetchCdpData`/`fetchIlkRate` and lib.js `fetchIlkRate` (43-51): only their null-on-error results are modelled, as `None` in `Outcome`.
- Lib.CollateralHundredths: stops before `Number(...) / 100`, a float.
- Lib.DebtHundredths: stops before `Number(...) / 100`, a float.
- Lib.CollateralizationRatioBp: returns basis points and stops before the float division by the precision.
- Lib.MaxCollateral: takes the liquidation ratio in basis points. The source's `liquidationRatio * 10000` is a float product, which is exact for the table's 1.45 and 1.01.
- Lib.NumberWithCommas: takes the string that `x.toString()` returns. Number-to-string conversion, including exponent forms, is not modelled.
- src/components/CdpDetails.js and src/App.js are not part of this model. They cover wallet signing, a contract fetch, routing and display arithmetic on float products.
