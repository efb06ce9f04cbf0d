# Drag n' Drop Bills — a verified model of the game controller

The `DragNDropBills` component runs a small counting game: each bill
dropped on the drop zone adds one to a counter, starts the clock on the
first bill, completes the game on the twentieth, and adds one particle
burst anchored at the drop point. A reset button clears the game, an
interval recomputes the elapsed seconds while the game is running, and
the elapsed time is shown as `m:ss`.

This project models that controller in Dafny:

- `Wrappers` — the `Option` type used for the nullable start time and the
  optional client offset.
- `TimeFormat` — `formatTime`, with JavaScript's integer-to-string
  conversion, `padStart`, `Math.floor` division and the sign-of-dividend
  `%` written out; for non-negative counts, proved to read back to the
  same number of seconds.
- `DropZone` — the drop target's `drop` callback: forwards to `onDrop`
  only when a client offset is present, always returns `{name: "DropZone"}`.
- `GameLogic` — the state as a value (`GameState`), the drop, reset and
  tick transitions, sessions of events replayed from a state, reference
  definitions of what a session means (drops since the last reset, the
  first drop's time, the log of bursts), the status panels, and the
  lemmas that connect them.
- `DragNDropBills` — the controller as a class `Game` whose fields are the
  component's state hooks and whose methods (`HandleDrop`, `ZoneDrop`,
  `HandleReset`, `Tick`) update them in place; each states its new fields
  and equals the matching `GameLogic` transition.

The clock is a parameter: every operation that reads `Date.now()` takes
`now: int` (milliseconds). Timestamps and elapsed seconds are integers;
drop coordinates are reals, which the model only copies.

Behaviour of the code worth noting:

- the game is completed exactly when the count is **at least** 20, not
  exactly 20: the count is not capped, and `gameCompleted` is only set by
  the drop that makes the count exactly 20 and only cleared by a reset;
- a reset does **not** clear the list of bursts; that list only grows;
- the interval's guard `startTime && billCount < 20` is JavaScript
  truthiness, so a start time of `0` counts as unset (`Truthy`);
- the elapsed time is not kept non-negative: a wall clock that steps
  back gives a negative value, which `formatTime` renders as, for example,
  `-1:-1` (`FormatTimeNegative`).

## Model

| member | source | states |
|---|---|---|
| `TimeFormat.FloorDiv` | components/drag-n-drop-bills.tsx:198 | `Math.floor(a / d)` for a positive divisor: the quotient `q` with `q*d <= a < (q+1)*d` |
| `TimeFormat.JsRemainder` | components/drag-n-drop-bills.tsx:199 | JavaScript `%`: strictly between `-d` and `d`, equal to `a mod d` for `a >= 0`, non-positive and the negated remainder of `-a` for `a < 0` |
| `TimeFormat.Digits` | components/drag-n-drop-bills.tsx:200 | an integer's `toString()` digits: at least one decimal digit, a single digit exactly below 10, no leading zero unless the number is 0 |
| `TimeFormat.PadStart` | components/drag-n-drop-bills.tsx:200 | `padStart(width, fill)`: length is the larger of the input's and `width`, the input is the suffix, every added character is the fill |
| `TimeFormat.ParseDigitsOfDigits` | components/drag-n-drop-bills.tsx:200 | reading the printed digits back gives the number |
| `TimeFormat.TwoDigitSeconds` | components/drag-n-drop-bills.tsx:199-200 | a seconds remainder below 60 pads to exactly its two decimal digits, tens then units |
| `TimeFormat.DecimalString` | components/drag-n-drop-bills.tsx:200 | an integer's `toString()` in the template literal: non-empty, starts with `-` exactly for a negative number, and the rest is decimal digits that read back as the number's absolute value, with no leading zero unless the number is 0 |
| `TimeFormat.FormatTime` | components/drag-n-drop-bills.tsx:197-201 | `formatTime`: for `s >= 0` the display is `s div 60` printed without padding, `:`, and the two digits (tens, units) of `s mod 60`; read back by `FormatTimeRoundTrip` |
| `TimeFormat.FormatTimeRoundTrip` | components/drag-n-drop-bills.tsx:197-201 | for `s >= 0`, parsing `formatTime(s)` back as `m:ss` yields `s` |
| `TimeFormat.FormatTimeInjective` | components/drag-n-drop-bills.tsx:197-201 | two non-negative second counts with the same display are equal |
| `TimeFormat.FormatTimeExamples` | components/drag-n-drop-bills.tsx:197-201 | `0` shows as `0:00`, `65` as `1:05`, `600` as `10:00` (minutes unpadded) |
| `TimeFormat.FormatTimeNegative` | components/drag-n-drop-bills.tsx:197-201 | a negative count shows floored minutes and a sign-carrying remainder: `-1` as `-1:-1`, `-60` as `-1:00` |
| `GameLogic.Truthy` | components/drag-n-drop-bills.tsx:163 | the `startTime &&` test: false exactly for `null` and for `0` |
| `GameLogic.Ticking` | components/drag-n-drop-bills.tsx:163 | the interval's guard: in a reachable state it holds only with 1 to 19 bills and the game not completed, and never from 20 bills on; the full tick is stated by `TickTransition` |
| `GameLogic.AfterDrop` | components/drag-n-drop-bills.tsx:171-188 | `handleDrop` as a value: keeps the state invariant; its effect on each field is stated by `DropTransition` |
| `GameLogic.AfterReset` | components/drag-n-drop-bills.tsx:190-195 | `handleReset` as a value: always yields a state satisfying the invariant; the fields and idempotence are stated by `ResetTransition` |
| `GameLogic.AfterTick` | components/drag-n-drop-bills.tsx:161-169 | one interval firing as a value: keeps the state invariant; the elapsed-time update is stated by `TickTransition` |
| `GameLogic.StatusMessages` | components/drag-n-drop-bills.tsx:239-271 | the status panels in render order: in every reachable state exactly one; which one is stated by `ExactlyOneStatus` |
| `DropZone.OnZoneDrop` | components/drag-n-drop-bills.tsx:71-77 | the callback forwards `(item, offset)` to `onDrop` if and only if a client offset is present, and always returns `{name: "DropZone"}` |
| `GameLogic.DropTransition` | components/drag-n-drop-bills.tsx:171-188 | a drop adds exactly 1 to the count with no cap; sets the start time to `now` only when the count was 0; sets completed, if not yet, exactly when the new count is 20, and never clears it; leaves elapsed time; appends one burst `{id: now, x, y}` |
| `GameLogic.ResetTransition` | components/drag-n-drop-bills.tsx:190-195 | reset gives count 0, no start time, elapsed 0, not completed, keeps the bursts; resetting twice equals resetting once; the result satisfies the state invariant |
| `GameLogic.TickTransition` | components/drag-n-drop-bills.tsx:161-169 | a tick sets elapsed to `floor((now - startTime) / 1000)` when the start time is truthy and the count is below 20, and changes nothing otherwise |
| `GameLogic.DropWithoutOffsetIsIgnored` | components/drag-n-drop-bills.tsx:71-77 | a drop event without a client offset leaves the whole state unchanged |
| `GameLogic.StepPreservesValid` | components/drag-n-drop-bills.tsx:161-195 | every event keeps the invariant: count non-negative, completed iff count >= 20, start time set iff count >= 1, elapsed 0 while count is 0 |
| `GameLogic.RunPreservesValid` | components/drag-n-drop-bills.tsx:161-195 | any session of events from a state satisfying the invariant ends in one that satisfies it |
| `GameLogic.EffectsAppendOnly` | components/drag-n-drop-bills.tsx:182-185 | after any session the burst list is the old list followed by one record per accepted drop, in order; resets remove none |
| `GameLogic.GameFieldsIgnoreBursts` | components/drag-n-drop-bills.tsx:142-195 | the burst list never influences the game: after any session, count, start time, elapsed time and completion are the same whatever bursts the start state held |
| `GameLogic.RunFromInitial` | components/drag-n-drop-bills.tsx:143-195 | from the initial state, the count equals the accepted drops since the last reset, the start time is the first such drop's time, and completed holds iff there were at least 20 |
| `GameLogic.ElapsedFrozenAfterCompletion` | components/drag-n-drop-bills.tsx:161-180 | once completed, further drops and ticks without a reset keep the game completed and the elapsed time frozen, and never lower the count |
| `GameLogic.OnlyDrops` | components/drag-n-drop-bills.tsx:171-181 | in a session of accepted drops only, every drop counts and the first drop's time is the start time |
| `GameLogic.DropLogLength` | components/drag-n-drop-bills.tsx:182-185 | a session of accepted drops logs exactly one burst per drop |
| `GameLogic.PlaySession` | components/drag-n-drop-bills.tsx:143-188 | after `n >= 1` accepted drops from the initial state: count `n`, start time of the first drop, completed iff `n >= 20`, `n` bursts |
| `GameLogic.ExactlyOneStatus` | components/drag-n-drop-bills.tsx:239-271 | in every reachable state exactly one panel shows: "Ready to start" at 0 bills, "Timer is running" below 20, "Congratulations" with the formatted time from 20 on |
| `GameLogic.IdleDisplay` | components/drag-n-drop-bills.tsx:232-234 | before the first bill the time display reads `0:00` |
| `DragNDropBills.Game.constructor` | components/drag-n-drop-bills.tsx:143-150 | the state hooks start at count 0, no start time, elapsed 0, not completed, no bursts |
| `DragNDropBills.Game.HandleDrop` | components/drag-n-drop-bills.tsx:171-188 | updates the fields in place as a drop does: count + 1, start time on the first bill, completed on the 20th, one burst appended; keeps the invariant |
| `DragNDropBills.Game.ZoneDrop` | components/drag-n-drop-bills.tsx:71-77 | the drop zone wired to `HandleDrop`: returns `{name: "DropZone"}`; without a client offset the object is unchanged |
| `DragNDropBills.Game.HandleReset` | components/drag-n-drop-bills.tsx:190-195 | clears the four game fields in place and leaves the burst list as it was |
| `DragNDropBills.Game.Tick` | components/drag-n-drop-bills.tsx:161-169 | sets the elapsed seconds from `now` only while ticking; no other field changes |

## Left out

- Rendering: JSX, CSS class selection, the card, button and progress primitives, the toaster, and the progress percentage `(billCount / 20) * 100`, a floating-point display value.
- The drag-and-drop library wiring (`useDrag`, `useDrop`, the provider and HTML5 backend) and the `isDragging` / `isOver` flags; only the drop callback's offset guard is modelled. The dragged item's payload is passed through but the handler ignores it.
- The burst component's canvas drawing, particle animation and its own 5-second expiry: they never remove a record from the controller's list.
- The window resize listener: its state is never read.
- Timer scheduling: `setInterval`, its 100 ms period and its cleanup when `startTime` or `billCount` change. The interval is modelled as an explicit `Tick` whose guard is checked on each firing; a firing that React delivers between a state change and the effect cleanup is not modelled.
- React updater semantics: `setStartTime` and `setGameCompleted` run inside the `setBillCount` updater, and StrictMode may invoke updaters twice; the model applies each handler once, atomically.
- `Date.now()` is read twice in a drop (start time and burst id); the model uses one reading `now` for both. Burst ids are not claimed to be unique.
- JavaScript numbers are doubles; timestamps and elapsed seconds are modelled as unbounded integers and drop coordinates as reals.
