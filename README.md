# CrptApi rate limiter, modelled in Dafny

`CrptApi` sends documents to the CRPT ("Честный знак") API. Each call of `createDocument`
must first get a permit from a rate limiter. A window starts at `lastRequestTimestamp`. It lasts
until a clock reading at least `requestIntervalMillis` later resets it. At most `requestLimit`
permits are granted within one window. This bounds permits per window, not per sliding span of
one interval: at a window boundary twice the limit can be granted within a single interval
(`BurstAtWindowBoundary`). This project models that limiter and the "acquire, then send" order
of `createDocument`, and proves its invariants.

Layout:

- `time_units.dfy` (module `TimeUnits`): `TimeUnit.toMillis(1)` as a table, checked against the units' nanosecond scale.
- `rate_window.dfy` (module `RateWindow`): the limiter as a pure state machine.
  - `Config` holds the interval and the limit.
  - `Window` holds `requestCount` and `lastRequestTimestamp`.
  - `Rolled` is the lazy window roll.
  - `Attempt` is one clock reading: roll, then grant or compute the sleep time.
  - `Run` is any number of back-to-back acquisitions.
  - The lemmas about permits per window are here too.
- `limiter.dfy` (module `Limiter`): the constructor's guard (`Configure`, `Create`) and the class `RateLimiter`.
  - The class has the same two constants and two mutable fields as the source.
  - `Acquire` follows the source's loop line for line and is proved against `Attempt`.
- `gateway.dfy` (module `Gateway`): `Submit`, i.e. `createDocument`: acquire, then call the opaque send action.
- `wrappers.dfy`: `Option` and `Result`.

The clock is an input. `Acquire` takes a sequence of readings. It reads `clock[0]` where the
source first calls `System.currentTimeMillis()`, and the next reading each time the source
reads the clock again after `lock.wait`. The readings are arbitrary integers, so they also stand
for clocks that go backwards and for early wakeups. Each `lock.wait(sleepTime)` shows up as one
entry of the returned `waits`. If the readings run out while the caller is still blocked, the
result is "not granted". The model proves that the limiter's state is then unchanged.

Points about the code that the proofs bring out:

- The constructor checks only the limit (`src/main/java/CrptApi.java:26`). A sub-millisecond
  `TimeUnit` gives interval 0, which is accepted. Then every acquisition with a non-decreasing
  clock rolls the window and is granted at once (`ZeroIntervalNeverBlocks`).
- The `if (sleepTime > 0)` test at `src/main/java/CrptApi.java:47` is always true inside the
  loop. The loop only runs when the preceding roll check failed, because a roll sets the count
  to 0 and the limit is positive. `Acquire` records a wait only when `sleepTime > 0`, and still
  proves one wait per blocked reading.
- If the clock has gone back before the window start, the sleep time is more than the interval.
  The bound `sleepTime <= interval` in `Attempt` is stated only for `now >= lastRequestTimestamp`.

## Model

| member | source | states |
|---|---|---|
| TimeUnits.OneUnitMillis | src/main/java/CrptApi.java:29 | one unit in milliseconds is its nanosecond length divided by 10^6 and truncated; it is 0 exactly for NANOSECONDS and MICROSECONDS |
| Limiter.Configure | src/main/java/CrptApi.java:25-30 | construction fails (IllegalArgument) exactly when `requestLimit <= 0`; otherwise the limit is stored unchanged and the interval is one unit in whole milliseconds |
| Limiter.RateLimiter.constructor | src/main/java/CrptApi.java:16-19 | a new limiter has count 0 and window start 0 and satisfies `0 <= count <= limit` |
| Limiter.RateLimiter.Create | src/main/java/CrptApi.java:25-33 | fails with IllegalArgument exactly when `Configure` does; otherwise gives a fresh valid limiter with the configured constants in the initial state |
| RateWindow.Rolled | src/main/java/CrptApi.java:39-42 | once the interval has elapsed the count is reset to 0 and the window starts at `now`; a roll never raises the count; any change means the interval has elapsed, the count is 0 and the window starts at `now`; a reading before the window start changes nothing |
| Limiter.RateLimiter.Roll | src/main/java/CrptApi.java:52-55 | updates the two fields in place to the rolled window and keeps the budget invariant |
| RateWindow.Attempt | src/main/java/CrptApi.java:39-57 | a reading is granted iff the window has elapsed or budget is left; a grant adds exactly 1 to the post-roll count; a refusal leaves the state unchanged with count == limit and a sleep time that ends exactly when the window does (`now + sleepTime == last + interval`), is positive, and is at most the interval when the clock has not gone back; the invariant is kept |
| Limiter.RateLimiter.Acquire | src/main/java/CrptApi.java:36-58 | grants at the first reading whose Attempt grants, reaching that Attempt's state; returns "not granted" with the state unchanged iff every reading must wait; records one positive wait per blocked reading |
| RateWindow.Run | src/main/java/CrptApi.java:36-58 | successive acquisitions keep `0 <= count <= limit` and grant at most one permit per reading |
| RateWindow.GrantedCallIsRun | src/main/java/CrptApi.java:45-57 | a call granted at reading k has the same effect as running readings 0..k, with exactly one grant |
| RateWindow.BlockedCallIsIdleRun | src/main/java/CrptApi.java:45-56 | a call still blocked when its readings run out is a run with no grant and no state change |
| RateWindow.RunConcat | src/main/java/CrptApi.java:36-58 | the readings of successive calls concatenate: states chain and grants add up |
| RateWindow.WindowBudget | src/main/java/CrptApi.java:39-57 | while no reading shows the interval elapsed, the window start stays fixed, each grant adds one to the count, and at most `limit - count` permits are granted |
| RateWindow.ExtraGrantNeedsElapsedWindow | src/main/java/CrptApi.java:45-56 | getting more permits than the window's remaining budget needs a reading at least one interval after the window start |
| RateWindow.BudgetLeftGrantsEveryReading | src/main/java/CrptApi.java:45-57 | while budget is left, every acquisition is granted at its first reading, whatever the clock says |
| RateWindow.RolledWindowServesFullBudget | src/main/java/CrptApi.java:39-57 | once the interval has elapsed, the next `limit` acquisitions are all granted without waiting |
| RateWindow.BurstAtWindowBoundary | src/main/java/CrptApi.java:39-57 | with limit 2 and interval 1000, readings 5000, 5999, 6000, 6000 are all granted: the budget is per window, so four permits fit in one interval across a boundary |
| RateWindow.ZeroIntervalGrantsAtOnce | src/main/java/CrptApi.java:39-45 | with interval 0, a reading not before the window start rolls the window and is granted with count 1 |
| RateWindow.ZeroIntervalNeverBlocks | src/main/java/CrptApi.java:39-57 | with interval 0 and a non-decreasing clock, every acquisition is granted |
| Gateway.Submit | src/main/java/CrptApi.java:57-60 | the action runs only after a permit is granted and its response is returned unchanged; the limiter's new state does not depend on the response, so a failed send is not refunded; the waits are those of `Acquire`, one per blocked reading |

## Left out

- Threads, `synchronized` and the meaning of `lock.wait`: callers are serialised. The wait is an output entry, and the next clock reading is an arbitrary input, which covers early and spurious wakeups.
- `InterruptedException` from `lock.wait`: an interrupted caller is not modelled.
- 64-bit `long` arithmetic on timestamps: timestamps are unbounded integers, so overflow of `currentTime - lastRequestTimestamp` is not modelled. `requestCount` is shown to stay at most `requestLimit`, a Java `int`, so `requestCount++` never overflows.
- `sendDocumentToApi` (HTTP request, JSON serialisation, console output): it is the opaque `send` parameter of `Submit`. An exception from it is part of its response value.
- The `Document`, `Description` and `Product` classes: data holders with no behaviour. `Submit` is generic in the document type.
- `TimeUnit.toMillis` for durations other than 1 and its saturation on overflow: the constructor only converts one unit.
- The `HttpClient` and `ObjectMapper` fields that the constructor creates: they belong to the send action.
