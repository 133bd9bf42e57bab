# Notifier: a Dafny model of the status light's control logic

The notifier (`index.js`) polls a status endpoint and shows the result on an
8x8 LED matrix. A report `{code, time}` that is recent enough starts an
animation of `MAX_COUNT` (60) frames. Code `"999"` plays a blinking "ok" icon
and any other code a turning rainbow. At the end of a cycle the display is
cleared and, if no background timer exists yet, a one-minute repeating
re-check is armed. A joystick press or a `GET /notify` request
(`triggerRefresh`) starts a new check when no cycle is running. A
`/notify` caller is answered with the last report.

The model has six modules:

- `Graphics`: the colour constants and the eleven slot variables `A..H`,
  `X`, `R`, `O` as a `Palette`; the four pixel tables of `getIcon`; and
  `shiftColor` as the pure function `Shift`. The lemmas cover the rainbow
  ring rotation (a permutation that restores the palette after eight turns)
  and the blink rules.
- `Freshness`: the result branch of `checkURL`. A response is either a
  transport error or a status with a decoded body. It is classified as
  stale, success or failure, and `Handle` says whether it is used at all.
- `Timers`: the `interval` handle (null, or a handle that `clearInterval`
  stops but never resets to null).
- `Animation`: one `showStatus` call as a step on the frame counter and
  the palette, and whole cycles as runs of such steps.
- `Machine`: all globals plus what the outside world observes (requests in
  flight, scheduled timeouts, frames drawn, clears, answers to `/notify`)
  as one value `Globals`. There is one function per event of the event
  loop, a trace semantics `RunEvents`, and lemmas over arbitrary event
  sequences.
- `NotifierApp`: the program itself as the class `Notifier`. Its fields
  are the globals. There is one method per function of `index.js` or per
  hop of the event loop, and each method is proved against the matching
  `Machine` function.

Time and scheduling are abstracted as follows:

- Each callback the event loop would run becomes one method call:
  `OnCheckResponse(k, resp, now)` for the answer to the k-th request in
  flight, `FrameTick` for the 100 ms frame timeout, `ClearTick` for the
  deferred `sense.clear`, and `IntervalTick` for the background timer.
- The local clock is the parameter `now`, in whole seconds.

Behaviour a reader might not expect, which the model keeps as the code has it:

- A stale report still answers the waiting `/notify` caller
  (`index.js:69`), so `AfterResponse` fires the callback after every
  status-200 response.
- Nothing keeps two checks from being in flight at once. The counter stays
  0 while a request is pending (`Machine.TwoChecksInFlight`).
- The background timer bypasses `triggerRefresh`, so it keeps ticking while
  a cycle runs (`Machine.IntervalKeepsTickingDuringCycle`).
- Once the background timer has been armed, a manual trigger stops the
  re-check for good, because `clearInterval` leaves the handle non-null
  (`Machine.StoppedTimerStaysStopped`). While the handle is still null,
  `clearInterval(null)` does nothing and the next completed cycle arms it.
- `showStatus` does not check for a loop already running: a fresh report
  that arrives mid-cycle, from a second check in flight or from the
  background timer, starts a second frame loop beside the first
  (`Machine.MidCycleReportStartsSecondLoop`).

## Model

| member | source | states |
|---|---|---|
| Graphics.Ring | index.js:172-179 | the rainbow ring has eight slots (its body lists A..H in order) |
| Graphics.InitialPalette | index.js:168-179 | the slots start with X black, R red and O white, and the eight ring colours are pairwise distinct |
| Graphics.RingDetermines | index.js:168-179 | a palette is determined by its ring together with X, R and O |
| Graphics.Flatten | index.js:232-241 | a pixel array is its rows laid out one after another: 8 cells per row, cell i is row i/8, column i%8 |
| Graphics.RainbowRows | index.js:230-242 | every row of the rainbow table is the ring A..H |
| Graphics.CrossRows | index.js:244-256 | the cross table is 8x8 and uses only A, B, C, F, G, H and X |
| Graphics.HsbcRows | index.js:258-270 | the hsbc table is 8x8, uses only X, R and O, and is mirror-symmetric in every row |
| Graphics.OkRows | index.js:272-284 | the ok table is 8x8; its left half uses only X and R, its right half only X and B |
| Graphics.Rows | index.js:286-291 | the table getIcon looks up by name is an 8x8 grid for each of the four names |
| Graphics.GetIcon | index.js:227-287 | getIcon returns exactly 64 cells for every icon |
| Graphics.RainbowIconColumns | index.js:233-240 | in the rainbow icon, the cell in column c of every row is ring slot c |
| Graphics.CrossIconSlots | index.js:246-255 | every cross cell is one of A, B, C, F, G, H, X |
| Graphics.HsbcIconSlots | index.js:260-269 | every hsbc cell is X, R or O |
| Graphics.OkIconSlots | index.js:274-283 | every ok cell is X, R or B |
| Graphics.IconReadsOnlyUsedSlots | index.js:227-287 | two palettes that agree on an icon's slots draw the same 64 cells |
| Graphics.Blink | index.js:198-207 | a blinking slot is black on an even counter and its lit colour on an odd one |
| Graphics.Rotate | index.js:209-218 | the rainbow shift leaves X, R and O alone |
| Graphics.ShiftEffect | index.js:196-225 | slots outside the icon's own set are unchanged; rainbow moves ring slot i+1 to ring slot i (mod 8); cross sets X, hsbc sets O and R, ok sets R and B, each by the counter's parity |
| Graphics.RotateRing | index.js:210-218 | the rainbow shift turns the ring: new ring = old ring[1..] + [old A] |
| Graphics.RotatePermutes | index.js:210-218 | the rainbow shift permutes the ring's colours (same multiset) |
| Graphics.RotateN | index.js:209-218 | repeated rainbow shifts leave X, R and O alone |
| Graphics.RotateAt | index.js:210-218 | after one shift, ring slot i holds what slot (i+1) mod 8 held |
| Graphics.RotateNAt | index.js:210-218 | after n shifts, ring slot i holds what slot (i+n) mod 8 held |
| Graphics.RotateNAdd | index.js:210-218 | m shifts followed by n shifts are m+n shifts |
| Graphics.RotateEightRestores | index.js:210-218 | eight rainbow shifts restore every palette |
| Graphics.RotateNMod | index.js:210-218 | only the number of shifts modulo 8 matters |
| Graphics.InitialRingHasOrderEight | index.js:172-179 | the initial ring returns to itself after no fewer than eight shifts |
| Graphics.OkShiftForgets | index.js:205-208 | two ok shifts in a row equal the second one alone |
| Freshness.Age | index.js:52-55 | the age exists exactly when the server time parses, and server time + age = local time |
| Freshness.IsFresh | index.js:59 | a report is fresh iff its time parses and local time minus server time is at most ALERT_INTERVAL; one stamped at or after the local time is always fresh |
| Freshness.Classify | index.js:59-67 | stale iff not `age <= ALERT_INTERVAL`; success iff fresh and code "999"; failure iff fresh and any other code |
| Freshness.OtherCodesAlike | index.js:60-64 | all codes other than "999" are classified alike |
| Freshness.FreshnessDecays | index.js:55-59 | a report fresh at a later time was fresh earlier; a stale one stays stale |
| Freshness.Handle | index.js:46-48 | a response is used iff it arrived without error with status 200; the retained report is its code and time plus the local time |
| Timers.ArmOnFinish | index.js:131-134 | the end of a cycle leaves a handle; a 60 s running timer is created only when the handle was null, otherwise the handle is kept as it is |
| Timers.Cancel | index.js:297 | clearInterval stops the timer, keeps a non-null handle and its period, and does nothing to null |
| Timers.ArmOnFinishIdempotent | index.js:131-134 | ending a second cycle never replaces the timer |
| Timers.CancelledStaysOff | index.js:131-134 | after clearInterval on an armed handle, no number of completed cycles restarts the timer or changes the handle |
| Animation.IconFor | index.js:185-189 | showPixel draws ok exactly after a success and rainbow otherwise |
| Animation.Frame.Pixels | index.js:191 | the frame pushed to the display has 64 cells |
| Animation.Step | index.js:125-137 | the post-increment test: the counter becomes 0 iff it was at MAX_COUNT, else it goes up by one; it stays within 0..MAX_COUNT; the terminal call leaves the palette alone |
| Animation.Rendered | index.js:139-153 | a terminal call draws nothing; any other call draws one frame from the palette before the shift |
| Animation.Run | index.js:125-153 | successive showStatus calls keep the counter within 0..MAX_COUNT, and n calls raise it by at most n |
| Animation.RunFrames | index.js:139-153 | n successive showStatus calls draw at most n frames |
| Animation.CycleCounts | index.js:125-153 | from an idle counter, after n <= MAX_COUNT calls the counter is n and n frames are drawn |
| Animation.CycleCompletes | index.js:126-137 | a cycle draws exactly MAX_COUNT frames; the next call draws none and resets the counter to 0 |
| Animation.CycleFrameAt | index.js:183-194 | frame i of a cycle is drawn from the palette left by the first i calls |
| Animation.RainbowCyclePalette | index.js:209-218 | during a rainbow cycle the palette after n calls is the original rotated n times |
| Animation.RainbowCycle | index.js:183-194 | frame i of a rainbow cycle shows the ring rotated i times |
| Animation.RainbowCycleLeavesHalfTurn | index.js:126-137 | the palette is not reset: a full rainbow cycle leaves the ring turned by four places |
| Animation.OkCyclePalette | index.js:205-208 | during an ok cycle the palette after n calls is the blink for counter n |
| Animation.OkCycle | index.js:183-194 | frame 0 of an ok cycle uses the palette as found, frame i > 0 the blink for counter i |
| Animation.OkCycleEndsDark | index.js:205-208 | an ok cycle ends with R and B black, so the next rainbow starts with a black B |
| Machine.InitValid | index.js:33-42 | the initial state satisfies the invariant (counter within 0..MAX_COUNT, no cycle before a report, a pending frame timeout whenever the counter is not 0): counter 0, the initial palette, no timer |
| Machine.AfterCheckURL | index.js:44-45 | checkURL adds exactly one request in flight, remembering whether it has a callback, and changes nothing else |
| Machine.AfterShowStatus | index.js:125-154 | from a consistent state (even one whose frame timeout was just consumed) the result satisfies the full invariant; terminal call: a clear is scheduled and the timer is armed only if the handle is null; otherwise the next frame is scheduled and the symbol records the icon; report, verdict, requests and answers are unchanged |
| Machine.ShowStatusIsStep | index.js:125-154 | on the counter, the palette and the display, showStatus is one Animation step with the icon of the last verdict |
| Machine.AfterResponse | index.js:45-71 | the request leaves the in-flight list; the callback fires once after every status-200 response and never otherwise; an unused response changes nothing else; a stale report only replaces the retained report; a fresh one sets isSuccess and runs one showStatus call |
| Machine.FreshReportStartsCycle | index.js:59-64 | a fresh report while idle starts a cycle: isSuccess iff code "999", counter 1, one frame of ok or rainbow drawn from the palette as found |
| Machine.AfterTrigger | index.js:293-303 | a check starts, and the timer is stopped, exactly when the counter is 0; otherwise only the callback is answered with the retained report; a running cycle is never disturbed |
| Machine.AfterFrameTick | index.js:144-146 | the frame timeout keeps the invariant: the counter stays within 0..MAX_COUNT, no cycle runs without a report, and a running cycle has a frame timeout pending |
| Machine.AfterClearTick | index.js:129 | the deferred clear runs once and changes no other global |
| Machine.AfterIntervalTick | index.js:132 | the background timer firing keeps the invariant |
| Machine.Apply | index.js:44-154 | every event that can occur keeps the invariant, including that a running cycle always has a frame timeout pending |
| Machine.RunEvents | index.js:74-113 | every run of the event loop keeps the invariant, so no reachable state has the counter away from 0 with no frame timeout to move it on |
| Machine.ApplyInterval | index.js:131-134 | an event leaves the handle alone, stops it, or arms it at the end of a cycle |
| Machine.StoppedTimerStaysStopped | index.js:297 | once a trigger has stopped the background timer, no run of the event loop restarts it |
| Machine.ArmedHandleIsNeverReplaced | index.js:131-132 | once armed, the handle stays armed with its period: at most one background timer ever exists |
| Machine.ApplyWaiting | index.js:93-95 | one event adds at most one waiting or answered /notify caller, and only a /notify request does |
| Machine.NotifyAnsweredAtMostOnce | index.js:69 | over any run, answers given plus callbacks still waiting never exceed the /notify requests made |
| Machine.TwoChecksInFlight | index.js:293-298 | boot followed by a button press leaves two checks in flight |
| Machine.IntervalKeepsTickingDuringCycle | index.js:132 | a fresh report fetched by the background timer starts a cycle while the timer keeps ticking |
| Machine.MidCycleReportStartsSecondLoop | index.js:59-64 | a fresh report arriving while 0 < count < MAX_COUNT advances the counter once more and leaves at least two frame loops pending |
| Machine.FrameTicksAdvance | index.js:139-153 | during a cycle each frame timeout is enabled and advances the counter by one |
| Machine.CycleDrains | index.js:126-137 | a running cycle always finishes: after its remaining frame timeouts the counter is 0, and a trigger then starts a check |
| NotifierApp.Notifier.constructor | index.js:159-179 | the initial globals are the model's initial state |
| NotifierApp.Notifier.Start | index.js:112 | main issues one check without a callback |
| NotifierApp.Notifier.CheckURL | index.js:44-45 | issuing a request is AfterCheckURL on the state |
| NotifierApp.Notifier.OnCheckResponse | index.js:45-71 | the request callback is AfterResponse on the state and keeps the invariant |
| NotifierApp.Notifier.ShowSuccess | index.js:115-118 | sets isSuccess and runs showStatus |
| NotifierApp.Notifier.ShowFailure | index.js:120-123 | clears isSuccess and runs showStatus |
| NotifierApp.Notifier.ShowStatus | index.js:125-154 | the imperative counter test, reset, timer hand-off and frame are exactly AfterShowStatus |
| NotifierApp.Notifier.ShowPixel | index.js:183-194 | records the icon for the verdict, appends a frame drawn from the slots before the shift, then leaves the slots as Shift computes them; no other global changes |
| NotifierApp.Notifier.ShiftColor | index.js:196-225 | the in-place switch, with the temporary-swap rotation, leaves the slots equal to Shift of the old slots |
| NotifierApp.Notifier.ClearInterval | index.js:297 | the handle becomes Cancel of the old handle |
| NotifierApp.Notifier.TriggerRefresh | index.js:293-303 | is AfterTrigger on the state |
| NotifierApp.Notifier.OnButtonPress | index.js:81-86 | a press is the ButtonPress event |
| NotifierApp.Notifier.OnNotify | index.js:91-96 | a /notify request is the Notify event |
| NotifierApp.Notifier.FrameTick | index.js:139-153 | the frame timeout is the FrameDue event |
| NotifierApp.Notifier.ClearTick | index.js:129 | the deferred clear is AfterClearTick |
| NotifierApp.Notifier.IntervalTick | index.js:132 | the background timer firing is the IntervalDue event |

## Left out

- The Sense HAT drivers (`sense-hat-led`, `sense-joystick`): `setPixels` is modelled as appending a frame, `sense.clear` as a counter, and joystick directions are ignored.
- The Express/helmet HTTP server, static hosting and the port: only the fact that `/notify` passes a callback that writes the retained report.
- The `request` client, the request options and `JSON.parse`: a response arrives as a transport error or as a status with a decoded `{code, time}`. A status-200 body that does not parse (which throws inside the callback) is not modelled.
- `moment`: times are whole seconds. A server time that `moment` cannot parse is `None`, whose age compares as not fresh (NaN). A body with no `time` field is given to the model with time equal to the local time, because `moment(undefined)` is the current time; such a report is fresh. Fractional seconds and time zones are not modelled.
- JavaScript's loose `==` on `info.code`: codes are compared as strings, so a numeric `999` is not modelled.
- `setTimeout`, `setInterval` and `async.series`: the 100 ms frame and clear delays and the 60 s period are dropped, and so is the relative order they would impose. Any pending frame timeout, deferred clear or background-timer tick may fire next (`Machine.Enabled`), so the model allows more interleavings than the real timers do.
- The RGB triples of the colour constants: only their names, which are distinct, are kept.
- Winston logging and log rotation, and every `logger.info` call.
- `addIcon` and the map getIcon fills: folded into a match on the icon name. A frame is recorded as the icon and the slot values it was drawn from; `Frame.Pixels` gives its 64 cells.
- The `default` branch of `shiftColor`: unreachable, because `symbol` is always one of the four icons.
