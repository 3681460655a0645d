# World clock home page — a Dafny model

The home page of the country-clock application shows the current time in the
country the user picks. Its controller, `HomeComponent`, does the following:

- It looks up a country record by its code.
- It takes the first of the record's `timezones`, a label such as `UTC+05:30`.
- It maps that label through a fixed table of 37 entries to a zone name such as
  `Asia/Kolkata`.
- It shows the time in that zone, and refreshes it with a repeating one-second
  interval.

A label the table does not hold shows the text `Timezone not supported`. A
response with no record, or a record without `timezones`, shows the empty text.
Picking the empty option leaves the shown clock running.

This project models that controller as a pure state machine. It then proves that
the controller never has more than one live interval, that the live one is
always the one `intervalId` holds, and that the table is the one written in the
source. A lookup answered after teardown, however, leaves one interval running
that nothing clears.

- `wrappers.dfy` (`Wrappers`) holds `Option`.
- `object_literal.dfy` (`ObjectLiteral`) models how a JavaScript object literal
  with string keys other than `__proto__` evaluates: left to right, and a later
  duplicate key overwrites an earlier one. It proves that a literal without
  duplicate keys keeps one binding per entry, each with its written value.
- `offset_table.dfy` (`OffsetTable`) holds the 37 entries of `timezoneMap` in
  source order, and the table they evaluate to. It also holds the same table
  written as a string `switch` (`PositionOf`), used as an independent reference.
  From these it proves the following:
  - there are 37 distinct keys;
  - every key has the shape `UTC±HH:MM`;
  - no zone name is empty;
  - the lookup (`Resolve`) hits exactly the table's keys, by exact string match.
- `home_clock.dfy` (`HomeClock`) models the controller. Its state holds the
  component's fields `selectedCountry`, `intervalId` and `currentTime`, plus
  three things the browser holds for it:
  - the intervals not yet cleared, each with the zone its callback formats in;
  - the handle the next `setInterval` returns;
  - the lookups still in flight.

  Each event is a function from state to state: initialisation, a selection, a
  lookup response or failure, an interval tick, and teardown. `Step` dispatches
  one event to its handler and `Run` feeds a sequence of events. The `Destroy`
  event also stands for a direct call of the public `clearInterval()` method
  (`home.component.ts:150-155`): `ngOnDestroy` does nothing else, so the two are
  the same function and the events have no separate clear event.
- `clock_properties.dfy` (`ClockProperties`) holds the invariant (`Inv`), its
  preservation over every event sequence, one lemma per branch of
  `updateCurrentTime`, the selection and response behaviour, and concrete runs.

The formatted time is kept abstract as the zone it is formatted in
(`ClockIn(zone)`). So the two literal texts the page can show (`""` and the
sentinel) and the ticking clock are three distinguishable values.

Behaviour worth knowing, as the code has it:

- **Empty code.** Selecting the empty code does not cancel the interval or clear
  the time: the code (`home.component.ts:109-111`) only sets `selectedCountry`
  to `null`, so the deselected country's clock keeps ticking. See
  `ClockProperties.EmptySelectKeepsClock`.
- **Non-empty code.** Selecting a non-empty code does not cancel the interval:
  the code (`home.component.ts:99-108`) only issues the lookup. The interval is
  cancelled when the response arrives and `updateCurrentTime` runs. See
  `ClockProperties.SelectKeepsClockUntilResponse`.
- **Stale responses.** Responses are not matched against the latest selection. The
  one that arrives last decides the page, even when it answers an older selection.
  See `ClockProperties.LastResponseWins` and
  `ClockProperties.StaleResponseScenario`.
- **Teardown.** Teardown does not cancel lookups in flight, so a response after
  `ngOnDestroy` starts an interval again, and since the component is gone,
  nothing ever clears it. See `ClockProperties.ResponseAfterDestroyRestartsClock`
  and `ClockProperties.LeakAfterDestroyScenario`.
- **Empty `timezones`.** An empty `timezones` array is truthy in JavaScript.
  `timezones[0]` is then `undefined`, and the page shows the sentinel, not the
  empty text. An empty response makes `response[0]` `undefined`, and the page
  shows the empty text.

## Model

| member | source | states |
|---|---|---|
| ObjectLiteral.BuildMap | src/app/pages/home/home.component.ts:21-59 | every key written in the object literal is bound, and every binding is one of the written entries |
| ObjectLiteral.LastOccurrenceWins | src/app/pages/home/home.component.ts:21-59 | a later duplicate key overwrites an earlier one: an entry whose key no later entry repeats is the one bound |
| ObjectLiteral.LastKeyIsNew | src/app/pages/home/home.component.ts:21-59 | in a literal with no repeated key, the last key is absent from the object built from the entries before it |
| ObjectLiteral.SizeOfDistinct | src/app/pages/home/home.component.ts:21-59 | a literal with no repeated key has as many keys as written entries |
| ObjectLiteral.ValuesOfDistinct | src/app/pages/home/home.component.ts:21-59 | in a literal with no repeated key, every key maps to the value written beside it, so no later entry overwrites it |
| OffsetTable.PositionOf | src/app/pages/home/home.component.ts:21-59 | the switch form of the table yields either "absent" or a valid entry position |
| OffsetTable.PositionsAgree | src/app/pages/home/home.component.ts:21-59 | the literal has 37 entries, and the switch sends each entry's key back to that entry's own position, so no two keys are alike |
| OffsetTable.EntryKeysWellFormedFirst | src/app/pages/home/home.component.ts:22-33 | the first twelve keys have the shape `UTC±HH:MM` |
| OffsetTable.EntryKeysWellFormedMiddle | src/app/pages/home/home.component.ts:34-45 | keys 13 to 24 have the shape `UTC±HH:MM` |
| OffsetTable.EntryKeysWellFormedLast | src/app/pages/home/home.component.ts:46-58 | keys 25 to 37 have the shape `UTC±HH:MM` |
| OffsetTable.EntryZonesNonEmpty | src/app/pages/home/home.component.ts:21-59 | no written zone name is the empty string |
| OffsetTable.TableAsWritten | src/app/pages/home/home.component.ts:21-59 | the keys are pairwise distinct, the table has exactly 37 keys, and each written key resolves to the zone written beside it |
| OffsetTable.SwitchFindsEntries | src/app/pages/home/home.component.ts:21-59 | any label the switch accepts is the key of the entry it points at |
| OffsetTable.TableIsSwitch | src/app/pages/home/home.component.ts:21-59 | the object literal and the independent switch agree on every string: same keys, same zones |
| OffsetTable.TableKeysWellFormed | src/app/pages/home/home.component.ts:21-59 | every key of the table has the shape `UTC±HH:MM` |
| OffsetTable.ZonesNonEmpty | src/app/pages/home/home.component.ts:21-59 | every zone in the table is truthy |
| OffsetTable.Resolve | src/app/pages/home/home.component.ts:120-123 | a hit returns the zone the table binds to the first offset; a key bound to a truthy zone is always a hit; a missing offset never is |
| OffsetTable.ResolveHitsExactlyKeys | src/app/pages/home/home.component.ts:121-123 | the truthiness test succeeds exactly on the keys of the table, with the bound zone |
| OffsetTable.EntryResolves | src/app/pages/home/home.component.ts:21-59 | every written label resolves to the zone written beside it |
| OffsetTable.ListedResolves | src/app/pages/home/home.component.ts:21-59 | a label the reference switch lists resolves to the zone of the entry it points at |
| OffsetTable.UnlistedMisses | src/app/pages/home/home.component.ts:121-123 | a label the reference switch does not list resolves to nothing |
| OffsetTable.ResolveIndia | src/app/pages/home/home.component.ts:22 | `UTC+05:30` resolves to `Asia/Kolkata` |
| OffsetTable.ResolveChatham | src/app/pages/home/home.component.ts:54 | `UTC+12:45` resolves to `Pacific/Chatham` |
| OffsetTable.ResolveNewYork | src/app/pages/home/home.component.ts:23 | `UTC-05:00` resolves to `America/New_York` |
| OffsetTable.ResolveTokyo | src/app/pages/home/home.component.ts:25 | `UTC+09:00` resolves to `Asia/Tokyo` |
| OffsetTable.ResolveOutsideTable | src/app/pages/home/home.component.ts:120-123 | a label outside the table, and a missing first offset, resolve to nothing |
| OffsetTable.ResolveIgnoresSignedZero | src/app/pages/home/home.component.ts:121 | lookup is by exact string: `UTC-00:00` is not found, although it denotes the offset of `UTC+00:00` |
| OffsetTable.ResolveNeedsPadding | src/app/pages/home/home.component.ts:121 | `UTC+5:30` is not found, although it denotes the offset of `UTC+05:30` |
| HomeClock.ClearInterval | src/app/pages/home/home.component.ts:150-155 | the stored interval, and only it, stops being live; the handle becomes null; nothing else changes |
| HomeClock.UpdateCurrentTime | src/app/pages/home/home.component.ts:115-147 | the previous interval is cleared first; then, per branch, the time becomes empty, the sentinel, or the clock in the resolved zone with one fresh interval bound to it |
| HomeClock.OnInit | src/app/pages/home/home.component.ts:61-64 | initialisation only issues the lookup of the default code `IN` |
| HomeClock.OnCountrySelect | src/app/pages/home/home.component.ts:97-112 | a non-empty code only issues its lookup; the empty code only nulls the selection |
| HomeClock.OnLookupResponse | src/app/pages/home/home.component.ts:86-88 | the selection becomes the response's first record (absent for an empty response), the answered lookup leaves the in-flight list, and the stored handle afterwards is none or the fresh handle `nextTimer`, and a previously stored handle below `nextTimer` is never kept |
| HomeClock.OnLookupError | src/app/pages/home/home.component.ts:105-107 | a failed lookup leaves the in-flight list and changes nothing else |
| HomeClock.OnTick | src/app/pages/home/home.component.ts:125-140 | a live interval writes the time in its own zone; a cleared one changes nothing |
| HomeClock.OnDestroy | src/app/pages/home/home.component.ts:66-69 | teardown clears the handle and stops the stored interval; the selection, the time, the lookups in flight, the next handle and the zones of the other intervals are unchanged |
| ClockProperties.InitialInv | src/app/pages/home/home.component.ts:13-17 | the component as constructed has no live interval and an empty time |
| ClockProperties.UpdateKeepsInv | src/app/pages/home/home.component.ts:115-147 | updating keeps at most the one stored interval live; the page shows what the selection calls for; an interval is live exactly when a clock is shown, and in the shown zone |
| ClockProperties.UpdateWithoutOffsets | src/app/pages/home/home.component.ts:144-146 | no selection, or no `timezones`, gives the empty time and no live interval |
| ClockProperties.UpdateUnsupported | src/app/pages/home/home.component.ts:141-143 | no first offset, or one the table lacks, gives the sentinel and no live interval |
| ClockProperties.UpdateResolved | src/app/pages/home/home.component.ts:119-140 | a first offset in the table gives exactly one live interval, bound to the zone the table gives, and that clock is shown |
| ClockProperties.OnlyFirstOffsetMatters | src/app/pages/home/home.component.ts:120 | two selections with the same first offset give the same page, whatever the later offsets |
| ClockProperties.ClearIntervalIdempotent | src/app/pages/home/home.component.ts:150-155 | clearing twice is clearing once |
| ClockProperties.DestroyStopsClock | src/app/pages/home/home.component.ts:66-69 | after teardown no interval is live and no tick changes anything |
| HomeClock.Step | src/app/pages/home/home.component.ts:85-108 | a response runs the `next` handler (selection becomes its first record), a failure the logging `error` handler (nothing but the in-flight list changes), a tick only writes the time; an answer to a lookup not in flight changes nothing; only a response may start an interval, and at most one |
| HomeClock.Run | src/app/pages/home/home.component.ts:61-155 | events are handled one after the other; handles are never reused, and without a response no interval starts |
| ClockProperties.RunConcat | src/app/pages/home/home.component.ts:61-155 | delivering two batches of events one after the other is delivering their concatenation |
| ClockProperties.StepKeepsInv | src/app/pages/home/home.component.ts:61-155 | every event keeps the single-interval invariant |
| ClockProperties.RunKeepsInv | src/app/pages/home/home.component.ts:61-155 | any sequence of events keeps the single-interval invariant |
| ClockProperties.NoTimerLeak | src/app/pages/home/home.component.ts:115-155 | from construction, over any event sequence, at most one interval is live, and it is the one `intervalId` holds |
| ClockProperties.EmptySelectKeepsClock | src/app/pages/home/home.component.ts:109-111 | the empty code nulls the selection, yet the interval stays live and keeps writing the old zone's time |
| ClockProperties.SelectKeepsClockUntilResponse | src/app/pages/home/home.component.ts:99-108 | a non-empty code cancels nothing and adds one lookup in flight |
| ClockProperties.ResponseDecidesPage | src/app/pages/home/home.component.ts:101-103 | a response, in any state, sets the selection to its first record and shows what that record calls for, with only the interval that shows it |
| ClockProperties.LastResponseWins | src/app/pages/home/home.component.ts:100-103 | of two responses, the later arrival decides the page, whichever selection it answers |
| ClockProperties.ResponseAfterDestroyRestartsClock | src/app/pages/home/home.component.ts:66-69 | a resolving response that arrives after teardown starts an interval again |
| ClockProperties.DefaultCountryScenario | src/app/pages/home/home.component.ts:84-88 | on load, India's record shows the clock in `Asia/Kolkata` under the first handle |
| ClockProperties.LeakAfterDestroyScenario | src/app/pages/home/home.component.ts:66-69 | India's answer arriving after teardown leaves its interval live, with nothing left to clear it |
| ClockProperties.UnsupportedScenario | src/app/pages/home/home.component.ts:141-143 | a record whose offset is outside the table shows the sentinel, with no interval |
| ClockProperties.ReselectScenario | src/app/pages/home/home.component.ts:97-108 | two selections issue two lookups and change nothing else |
| ClockProperties.InOrderScenario | src/app/pages/home/home.component.ts:100-103 | `US` then `JP`, answered in order, shows Tokyo with one interval |
| ClockProperties.StaleResponseScenario | src/app/pages/home/home.component.ts:100-103 | the same answers out of order: the stale `US` answer wins and New York is shown, with one interval |

## Left out

- The country lookup service, `src/app/service/country.service.ts`, is not part of this model. It is an HTTP wrapper. Its responses and failures are events, and a response carries any sequence of records.
- `getCountryList` and `countryList` (lines 72-81) are not modelled. They only fill the drop-down, and nothing in the clock depends on them.
- `Intl.DateTimeFormat` and `new Date()` (lines 125-134) are not modelled. The formatted wall-clock text is kept abstract as the zone it is formatted in, so the formatted text is not modelled.
- The timing of intervals is not modelled. A tick is an event that may arrive at any point, for any handle. The one-second period is not modelled.
- `console.error` in the error handlers is not modelled. Logging has no effect on the component's state.
- A country record is reduced to its `timezones` field. A `timezones` value that is truthy but not an array of strings is not modelled.
- Keys inherited through the object's prototype are not modelled. For example, `timezoneMap["constructor"]` is truthy in JavaScript, and the model treats that label as a miss.
- HomeClock.ClearInterval: handles are taken to be truthy. `if (this.intervalId)` would skip a handle of `0`, but the model hands out handles from 1 upward, as browsers do.
- HomeClock.Step: a response or failure for a lookup that is not in flight cannot occur, so it is modelled as changing nothing.
