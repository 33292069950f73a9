# Power meter firmware: a verified model

A Dafny model of the nRF52840 pulse-counting Zigbee energy meter, and proofs about
whole runs of it. `dafny verify dfyconfig.toml` checks the project.

What is modelled:

- **PulseGate**: the hardware filter. Pulse edges start and stop a 16-bit microsecond
  timer; a compare match counts the pulse and freezes the timer.
- **PulseAccumulator**, **PersistPolicy**, **NvsStore**, **Meter**: the counting pipeline
  over any number of power cycles, with flash failures anywhere. A ledger puts every
  accepted pulse in exactly one of seven places; the theorems say that the numbers the
  firmware computes are the contents of those places.
- **MeteringScale**, **ReportGate**, **Publication**, **MeterReading**: the three threads
  that bring the total to the coordinator, and the path from edges to the value it reads.
- **MainLoop**: `main()` over the objects above, proved to take the steps of the machines.
- **LedPriority**, **LedController**, **FatalPattern**, **JoinFeedback**, **UserButton**,
  **HoldIndicator**: the LEDs, their timing, and the button.
- **Calibration**, **CalibrationProtocol**: attribute writes, roll-back, persistence, boot.
- **BatteryLevel**: the battery encodings.

Every imperative file is a class whose methods are proved equal to one step of a machine
on values; the properties are lemmas about all runs of that machine. What the model takes
from outside (read and write outcomes, mount outcomes, elapsed times, pin levels, refusals
of the callback scheduler) are parameters of the steps.

Where a comment or an interface in the source promises more than the code keeps, the code is
modelled, the exact condition is proved, and a concrete run shows the failure:

- `zigbee_app.c` lines 1345-1347 speak of a single writer of the pending total. There are two:
  the five-minute report work reads the total, blocks in the battery conversion (on by
  default), and only then stores what it read, so the main loop can publish in between. The
  attribute goes backwards if and only if the report work stores a total below what the
  attribute shows and that store is the last before a callback
  (`Publication.AttributeFallsIffUndercut`). It does so after a cold boot in
  `Publication.AttributeCanFall`.
- `hw_pulse_counter.c` lines 433-437 call the threshold updatable live. A write to a value the
  running timer has already reached is not noticed until the timer wraps
  (`PulseGate.LiveWriteJudgesPulseInFlight`, `PulseGate.LiveWriteCanMiss`). The harm ends at the
  next edge (`PulseGate.ExactFromNextEdge`).
- `zigbee_app.c` lines 878-883 promise a roll-back of refused writes. The pulse-width path rolls
  back to the refused value (`CalibrationProtocol.WidthAttributeTellsTruthIff`,
  `CalibrationProtocol.RefusedWidthStaysVisible`).
- `zigbee_app.c` lines 775-781 say the attribute mirrors the register. Two separate loads can
  differ (`CalibrationProtocol.BootWidthsAgreeIff`), as after one accepted write and one failed
  load (`CalibrationProtocol.BootWidthsCanDiffer`).
- `main.c` lines 502-513: after a hard load error the total restarts at zero above a record
  that the next save overwrites (`Meter.UnreadRecordIsShelved`, `Meter.FateOfShelvedRecord`).
  A new device can lose its first pulse that way (`Meter.RecordCanBeForgotten`); without such a
  save the next good boot recovers it (`Meter.ShelvedRecordReturns`).
- `zigbee_app.c` lines 371-374 call the hand-off of the join flag honest because it is atomic.
  But `zigbee_app_start_join` sets the flag and only then asks for the blink, on the thread
  of lowest priority. A steering signal in between, of an automatic rejoin for instance, takes the flag, and
  the blink that follows has nothing to end it (`JoinFeedback.BlinkMeansJoiningIff`,
  `JoinFeedback.OrphanBlinksOn`, `JoinFeedback.OrphanCanArise`).

Two more hold of the firmware as it is configured and called, and would fail elsewhere; the
exact condition and a failing run of the file alone are proved:

- `led_controller.c` lines 103-106 expect a stale tick to find its case gone and do nothing. If
  a timed pattern has taken over, it acts on that (`LedController.StaleTickIsHarmlessIff`,
  `LedController.StaleTickCanCut`); the invariant survives it. As configured that does not occur:
  `prj.conf` leaves the system work queue cooperative, cancelling removes an
  item that is queued, and the one interrupt that can run between the handler's start and its
  lock, `user_button_isr`, cancels only the hold indicator, which has no tick. The comment's
  reasoning is wrong for a preemptible queue, where a thread can cancel and request in between.
- `led_controller.h` lets `led_request` ask for the fatal pattern. Without a flash count from
  `led_request_fatal` its handler divides by zero, unless the uptime is ten minutes or more
  (`LedController.HaltsIffUncounted`, `LedController.UncountedFatalHalts`); no caller does that
  (`LedController.CallersNeverHalt`).

## Model

| member | source | states |
|---|---|---|
| PulseGate.GateExactness | seeed-studio-zigbee-energy-meter/src/hw_pulse_counter.c:295-404 | for every edge trace with a fixed threshold, overlapping sources included, TIMER2 advances modulo 2^32 by the number of start edges that no edge follows within the threshold |
| PulseGate.AcceptsExactly | seeed-studio-zigbee-energy-meter/src/hw_pulse_counter.c:306-319 | the same from any state of the timer, with the pulse in flight accounted for |
| PulseGate.PulsesCountedByWidth | seeed-studio-zigbee-energy-meter/src/hw_pulse_counter.c:316-319 | for pulses that do not overlap, exactly those at least as wide as the threshold are counted |
| PulseGate.CounterCountsAccepted | seeed-studio-zigbee-energy-meter/src/hw_pulse_counter.c:395-404 | each compare event bumps TIMER2 once, modulo 2^32, also with threshold writes in the trace |
| PulseGate.RunningTicksExactly | seeed-studio-zigbee-energy-meter/src/hw_pulse_counter.c:151-167 | the timer runs for min(threshold, time to the next edge) per start edge |
| PulseGate.HfclkBound | seeed-studio-zigbee-energy-meter/src/hw_pulse_counter.c:36-42 | the clock request lasts at most the threshold times the number of start edges |
| PulseGate.AtMostOnePerStart | seeed-studio-zigbee-energy-meter/src/hw_pulse_counter.c:306-314 | under any threshold writes a start edge yields at most one count |
| PulseGate.ExactAfterSafeWrites | seeed-studio-zigbee-energy-meter/src/hw_pulse_counter.c:431-443 | after any interleaving of writes to an idle timer or above its value, counting is exact for the final threshold |
| PulseGate.AcceptsByPulse | seeed-studio-zigbee-energy-meter/src/hw_pulse_counter.c:353-404 | for every trace, gate and write: each start edge is counted if and only if its own stretch of the trace meets the threshold then in force |
| PulseGate.WritesMisjudgeOnePulseEach | seeed-studio-zigbee-energy-meter/src/hw_pulse_counter.c:431-443 | under any in-range writes the count differs from the starts that qualify under the threshold in force by at most one per write |
| PulseGate.ExactFromNextEdge | seeed-studio-zigbee-energy-meter/src/hw_pulse_counter.c:431-443 | after any in-range writes the gate is armed again from the next edge on, and exact for the threshold last written |
| PulseGate.LiveWriteJudgesPulseInFlight | seeed-studio-zigbee-energy-meter/src/hw_pulse_counter.c:431-443 | a live write judges the pulse in flight by the new threshold if and only if that was not yet reached, or the pulse outlasts a timer wrap |
| PulseGate.LiveWriteCanMiss | seeed-studio-zigbee-energy-meter/src/hw_pulse_counter.c:431-443 | a concrete pulse that meets the new threshold and is not counted |
| PulseGate.Timers.OneMicrosecond | seeed-studio-zigbee-energy-meter/src/hw_pulse_counter.c:151-167 | a tick on the registers is the machine's tick, and reports the compare event |
| PulseGate.Timers.PulseStart | seeed-studio-zigbee-energy-meter/src/hw_pulse_counter.c:353-382 | a start edge of either source restarts the timer from zero |
| PulseGate.Timers.PulseEnd | seeed-studio-zigbee-energy-meter/src/hw_pulse_counter.c:361-393 | a stop edge of either source stops and clears it |
| PulseGate.Timers.SetMinWidthUs | seeed-studio-zigbee-energy-meter/src/hw_pulse_counter.c:431-443 | only CC[0] changes |
| PulseAccumulator.WrapRefinement | seeed-studio-zigbee-energy-meter/src/pulse_accumulator.c:9-21 | through any number of 32-bit wraps the total follows the true count if and only if fewer than 2^32 pulses separate neighbouring samples |
| PulseAccumulator.SampledIsRecovered | seeed-studio-zigbee-energy-meter/src/pulse_accumulator.c:9-15 | without that condition, each gap is recovered modulo 2^32 and the total wraps at 2^64 |
| PulseAccumulator.Accumulator.UpdateFrom | seeed-studio-zigbee-energy-meter/src/pulse_accumulator.c:9-15 | the in-place update is the u32 difference added in u64 |
| NvsStore.SaveLoadRoundTrip | seeed-studio-zigbee-energy-meter/src/nvs_store.c:75-178 | a saved record reads back after a power cycle, the others are untouched, a failed save changes nothing |
| NvsStore.Store.Init | seeed-studio-zigbee-energy-meter/src/nvs_store.c:25-73 | the initialisation with its early returns is that recovery |
| Meter.Conservation | seeed-studio-zigbee-energy-meter/src/main.c:432-514 | over any run with any failures, the live total plus pulses unsampled, shelved, lost, forgotten, wrapped and erased is every pulse ever accepted; none is counted twice |
| Meter.HealthyConservation | seeed-studio-zigbee-energy-meter/src/main.c:473-514 | with good mounts and loads and timely samples, only RAM-resident pulses at a power loss and erased ones are missing |
| Meter.EndToEnd | seeed-studio-zigbee-energy-meter/src/main.c:440-588 | over any number of healthy boots and threshold writes, the total plus pulses unsampled, lost and erased is the number of start edges let through on the raw waveforms of all boots, each boot from the threshold programmed at its power-up; within one per threshold write it is the number that qualify under the threshold in force, and exactly that without writes |
| Meter.AcceptedIsCounted | seeed-studio-zigbee-energy-meter/src/main.c:440-588 | over any run, failures included, every accepted pulse belongs to one start edge of one boot |
| Meter.ThresholdFollowsWrites | seeed-studio-zigbee-energy-meter/src/zigbee_app.c:932-940 | over any run with any failures, by the events alone: while there is power the threshold in the gate is the last one in 100..10000 written to the running device since power-up, else the one loaded then; the width record is the last of them whose flash write went through |
| Meter.PowerUpIsFresh | seeed-studio-zigbee-energy-meter/src/hw_pulse_counter.c:105-167 | every power-up clears both timers and programs a threshold in range |
| Meter.UnreadRecordIsShelved | seeed-studio-zigbee-energy-meter/src/main.c:501-513 | the restored total is the record as far as the load returned it; otherwise zero, with the record still in flash |
| Meter.FateOfShelvedRecord | seeed-studio-zigbee-energy-meter/src/main.c:613-627 | such a record is overwritten by the first successful save of that boot and otherwise stays |
| Meter.ShelvedRecordReturns | seeed-studio-zigbee-energy-meter/src/main.c:473-514 | if it stays, the next good boot restores it whole |
| Meter.RecordCanBeForgotten | seeed-studio-zigbee-energy-meter/src/main.c:501-513 | from the factory: a saved pulse is forgotten after one failed load and one save |
| Meter.RunKeepsInv | seeed-studio-zigbee-energy-meter/src/main.c:571-630 | total, register, last_saved_total and NVS record agree with the ledger after every step |
| Meter.FactoryIsHealthy | seeed-studio-zigbee-energy-meter/src/main.c:455-471 | a new device satisfies the invariants the run theorems start from |
| Meter.FlashWearBound | seeed-studio-zigbee-energy-meter/src/main.c:463-490 | over any number of power cycles, failures included: writes of the accumulator record <= boots + boot-hold erases + pulses accepted / 100 + running ms / 300000 |
| Meter.SavesArePaidFor | seeed-studio-zigbee-energy-meter/src/persist_policy.c:11-30 | over any run each save is paid for by 100 accepted pulses, or by one interval of running or a boot |
| Meter.CheckedIsNearlySaved | seeed-studio-zigbee-energy-meter/src/main.c:613-627 | after a check without a failed write the total lags the record by under 100 pulses and, if at all, by under 300000 ms |
| Meter.CrashLossBound | seeed-studio-zigbee-energy-meter/src/main.c:23-32 | a power loss at any later moment costs fewer than 100 pulses plus those accepted since the register was last read before that check |
| Meter.DueUntilSaved | seeed-studio-zigbee-energy-meter/src/persist_policy.c:16-29 | a due save stays due until one succeeds |
| Meter.FirstChangeIsDue | seeed-studio-zigbee-energy-meter/src/main.c:463-471 | until the first save after boot a write is due if and only if the total has changed |
| MainLoop.BootButtonHeld | seeed-studio-zigbee-energy-meter/src/main.c:217-235 | true exactly when every poll before the threshold reads pressed, and for how long it polled |
| MainLoop.Firmware.constructor | seeed-studio-zigbee-energy-meter/src/main.c:432-453 | store and counter initialisation is the power-up step |
| MainLoop.Firmware.RestoreTotal | seeed-studio-zigbee-energy-meter/src/main.c:455-514 | erase-before-load is the restore step |
| MainLoop.Firmware.StartPublishing | seeed-studio-zigbee-energy-meter/src/main.c:564-569 | the restored total is published once after boot |
| MainLoop.Firmware.Iterate | seeed-studio-zigbee-energy-meter/src/main.c:571-630 | one loop pass is a sample, a publication of a changed total and a policy check |
| MainLoop.Firmware.ReportTick | seeed-studio-zigbee-energy-meter/src/main.c:308-340 | the uninterrupted report work |
| MeteringScale.DecodeEncode | seeed-studio-zigbee-energy-meter/src/metering_scale.c:3-14 | the wire form fits its halves and decodes to the total, saturated at 2^48 - 1 |
| ReportGate.FiresOncePerPeriod | seeed-studio-zigbee-energy-meter/src/report_gate.c:9-21 | after n calls the gate has fired once per whole period and holds the remainder |
| Publication.OnlyRealTotals | seeed-studio-zigbee-energy-meter/src/zigbee_app.c:1103-1125 | under any interleaving the attribute and every report show zero or a total the accumulator had |
| Publication.PendingIsLastHanded | seeed-studio-zigbee-energy-meter/src/zigbee_app.c:1334-1373 | from any boot, by the events alone: the pending total is the last one the main loop or the report work handed over, the restored one at first, and the queue holds the accepted callbacks that have not run |
| Publication.BootPublishesRestored | seeed-studio-zigbee-energy-meter/src/main.c:564-569 | one callback after boot the attribute shows the restored total |
| Publication.SolePublisherKeepsUp | seeed-studio-zigbee-energy-meter/src/main.c:590-611 | without the report work the pending total is the total at the last pass of the main loop |
| Publication.NeverAheadAndCatchesUp | seeed-studio-zigbee-energy-meter/src/zigbee_app.c:1263-1283 | from any boot the attribute never exceeds the current total, and is that of the last total handed over when the queue is empty and nothing was refused |
| Publication.OneCallbackSuffices | seeed-studio-zigbee-energy-meter/src/zigbee_app.c:1345-1352 | stores collapse: one callback after the last is enough |
| Publication.ReportsAreAccountedFor | seeed-studio-zigbee-energy-meter/src/main.c:328-336 | from any boot, while the scheduler accepts callbacks: frames sent, queued and missed for want of a slot are one per five-minute report work and one per 100 publications of the main loop |
| Publication.ReportWorkReports | seeed-studio-zigbee-energy-meter/src/main.c:308-340 | the report work on a drained queue sends one frame, with the total it read |
| Publication.AttributeFallsIffUndercut | seeed-studio-zigbee-energy-meter/src/zigbee_app.c:1334-1373 | from any boot, under any interleaving and refusals: the attribute never falls if and only if no store of the report work below the attribute is the last one before a callback |
| Publication.AttributeCanFall | seeed-studio-zigbee-energy-meter/src/main.c:308-340 | from a cold boot: the attribute shows 1, then 0, and the next loop does not repair it |
| Publication.ReportsFallIffUndercut | seeed-studio-zigbee-energy-meter/src/zigbee_app.c:1355-1373 | from any boot: a reported value is followed by a lower one if and only if the report work stores a total below the last reported and a reporting callback runs before another store |
| Publication.SolePublisherNeverFalls | seeed-studio-zigbee-energy-meter/src/main.c:590-611 | from any boot, with the main loop as the only publisher neither the attribute nor the values in successive reports ever fall |
| Publication.Publisher.PublishIfChanged | seeed-studio-zigbee-energy-meter/src/main.c:590-611 | the loop's publishing part is the machine's step |
| Publication.Publisher.RunNextCallback | seeed-studio-zigbee-energy-meter/src/zigbee_app.c:1263-1283 | the callback writes the pending total and possibly reports it |
| MeterReading.ReadingNeverExceedsPulses | seeed-studio-zigbee-energy-meter/src/main.c:564-630 | over any run from edges to callbacks the value a coordinator reads never exceeds the accepted pulses less those missing |
| MeterReading.SettledReadingIsExact | seeed-studio-zigbee-energy-meter/src/zigbee_app.c:1334-1353 | once publications have drained it is exactly that number, saturated |
| MeterReading.LoopSettlesReading | seeed-studio-zigbee-energy-meter/src/main.c:571-611 | after any history, a pass of the main loop and callbacks until the queue is empty the reading is exactly that number, if the pass found a new total or no report work has stored one |
| MeterReading.SilentSystem | seeed-studio-zigbee-energy-meter/src/zigbee_app.c:695-701 | before and between boots the attribute is zero and the invariant holds |
| LedPriority.ArbiterRefinesHistory | seeed-studio-zigbee-energy-meter/src/led_priority.c:9-41 | for any requests and cancels, by the operations alone: the arbiter shows the first request of strongest priority since the leading pattern was last cancelled, and is idle if and only if there is none |
| LedPriority.PriorityState.RequestPattern | seeed-studio-zigbee-energy-meter/src/led_priority.c:9-32 | the result tells whether the pattern is active afterwards |
| LedController.Step | seeed-studio-zigbee-energy-meter/src/led_controller.c:182-258 | every locked section keeps rendered = selected, LEDs as the pattern prescribes, and, until the handler halts, a tick pending iff the pattern has one |
| LedController.RunKeepsLedInv | seeed-studio-zigbee-energy-meter/src/led_controller.c:101-191 | so over all sequences of requests, cancels, fatals, waits and ticks, stale ones and FATAL by led_request included; the LEDs stay lit without a timer only for the hold indicator or after a halt |
| LedController.HaltsIffUncounted | seeed-studio-zigbee-energy-meter/src/led_controller.c:337-388 | the handler divides by zero if and only if it runs on a FATAL that never got a flash count, within ten minutes |
| LedController.CallersNeverHalt | seeed-studio-zigbee-energy-meter/src/led_controller.c:242-258 | when led_request_fatal comes before any other request of FATAL, it never does |
| LedController.UncountedFatalHalts | seeed-studio-zigbee-energy-meter/src/led_controller.c:222-230 | from initialisation: FATAL by led_request, and the first tick halts |
| LedController.InitKeepsLedInv | seeed-studio-zigbee-energy-meter/src/led_controller.c:193-220 | the initial state satisfies the invariant, and what the callers theorem starts from |
| LedController.EveryTickCountsDown | seeed-studio-zigbee-energy-meter/src/led_controller.c:266-335 | every handler run brings a self-ending pattern one step closer to dark |
| LedController.ReachesDark | seeed-studio-zigbee-energy-meter/src/led_controller.c:266-335 | such a pattern ends dark and idle after that many runs |
| LedController.BlinkCounts | seeed-studio-zigbee-energy-meter/src/led_controller.c:54-66 | exactly three blinks for a failed join and four for an erase, in 1.2 s each |
| LedController.OneShotsShow | seeed-studio-zigbee-energy-meter/src/led_controller.c:109-130 | a one-shot that wins: white 100 ms, green 2 s for a join, green 50 ms for a report, then dark |
| LedController.RequestShowsIffItWins | seeed-studio-zigbee-energy-meter/src/led_controller.c:222-230 | a request shows its pattern if it wins and changes nothing if it does not; the pattern shown is not restarted |
| LedController.CancelEndsOnlyItsOwn | seeed-studio-zigbee-energy-meter/src/led_controller.c:232-240 | a cancel darkens the pattern shown if it is that pattern and otherwise changes nothing |
| LedController.JoiningBlinksForEver | seeed-studio-zigbee-energy-meter/src/led_controller.c:277-286 | a joining request that wins shows blue, which toggles every 500 ms and never ends by itself |
| LedController.LateTickPushesBack | seeed-studio-zigbee-energy-meter/src/led_controller.c:277-286 | a late handler run counts the next half period from when it ran |
| LedController.StaleTickIsHarmlessIff | seeed-studio-zigbee-energy-meter/src/led_controller.c:103-107 | a stale handler run does nothing if and only if the pattern shown has no timer |
| LedController.StaleTickCanCut | seeed-studio-zigbee-energy-meter/src/led_controller.c:266-275 | a run from initialisation in which one would end a later pattern at once |
| LedController.Controller.TickHandler | seeed-studio-zigbee-energy-meter/src/led_controller.c:260-398 | the handler on the file's variables is the machine's tick, short of the division by zero |
| LedController.Controller.RequestFatal | seeed-studio-zigbee-energy-meter/src/led_controller.c:242-258 | the flash count is clamped and the request made |
| FatalPattern.FatalAlternates | seeed-studio-zigbee-energy-meter/src/led_controller.c:337-388 | red alternates on every handler run, across the collapse and after a second request |
| FatalPattern.SecondFatalRequest | seeed-studio-zigbee-energy-meter/src/led_controller.c:242-258 | a second request changes the count, clamped to 1..5, and the start of the ten minutes, and nothing else |
| FatalPattern.BeforeCollapse | seeed-studio-zigbee-energy-meter/src/led_controller.c:354-386 | after a fatal request that takes the LEDs over: where the pattern is after k cycles of 2 n handler runs and j more, to the millisecond, each phase at least 100 ms |
| FatalPattern.DutyCycle | seeed-studio-zigbee-energy-meter/src/led_controller.c:67-74 | k cycles from such a request last 5000 k ms with red on for 100 n k of them, at most a tenth |
| FatalPattern.AfterCollapse | seeed-studio-zigbee-energy-meter/src/led_controller.c:340-353 | the collapse comes exactly 120 cycles after such a request, then 100 ms on and 9900 ms off |
| JoinFeedback.OutcomesNeverExceedJoins | seeed-studio-zigbee-energy-meter/src/zigbee_app.c:1285-1297 | from initialisation, outcomes painted never exceed user joins, with signals between the two steps of a join included |
| JoinFeedback.JoinedFollowsSignals | seeed-studio-zigbee-energy-meter/src/zigbee_app.c:591-634 | joined is the outcome of the last steering, or an attachment or departure since; a failed reattachment leaves it |
| JoinFeedback.JoinIsSeenIff | seeed-studio-zigbee-energy-meter/src/zigbee_app.c:1285-1297 | a user join shows the blink unless the fatal pattern or the hold indicator does |
| JoinFeedback.BlinkMeansJoiningIff | seeed-studio-zigbee-energy-meter/src/zigbee_app.c:1285-1297 | the joining blink is shown only while a user join is in flight, at every moment of a run, if and only if no steering signal falls between the flag and a blink request that shows |
| JoinFeedback.OrphanBlinksOn | seeed-studio-zigbee-energy-meter/src/zigbee_app.c:591-614 | otherwise ticks, signals, leaves and reattachments leave it blinking |
| JoinFeedback.OrphanCanArise | seeed-studio-zigbee-energy-meter/src/zigbee_app.c:1294-1295 | a run from initialisation that ends so |
| JoinFeedback.AutomaticRejoinIsSilent | seeed-studio-zigbee-energy-meter/src/zigbee_app.c:599-612 | steering that the user did not ask for leaves the LEDs alone |
| JoinFeedback.OutcomeIsSeenIff | seeed-studio-zigbee-energy-meter/src/zigbee_app.c:591-614 | the outcome is seen if and only if nothing stronger is showing |
| JoinFeedback.JoinState.StartUserJoin | seeed-studio-zigbee-energy-meter/src/zigbee_app.c:1285-1297 | an uninterrupted user join is the two steps |
| JoinFeedback.JoinState.OnSteering | seeed-studio-zigbee-energy-meter/src/zigbee_app.c:591-614 | the steering signal is the machine's step and paints iff the flag was set |
| UserButton.IndicatorAgreesWithReset | seeed-studio-zigbee-energy-meter/src/main.c:113-163 | over any sequence of presses the hold indicator is requested and not yet cancelled at release if and only if the press resets the device; 1000 to 2999 ms does nothing |
| UserButton.DurationFits | seeed-studio-zigbee-energy-meter/src/main.c:148-161 | the clamped duration fits a signed word and never changes the action |
| HoldIndicator.LitIffReset | seeed-studio-zigbee-energy-meter/src/main.c:113-163 | from initialisation, over any interleaving of presses with everything else that drives the LEDs: at release the hold indicator is the pattern shown if and only if the press resets the device and no fatal pattern is showing |
| UserButton.ButtonState.Isr | seeed-studio-zigbee-energy-meter/src/main.c:119-163 | the interrupt handler is the press or release step |
| Calibration.EffectiveMinWidthUs | seeed-studio-zigbee-energy-meter/src/hw_pulse_counter.c:78-103 | whatever the load returns, the threshold is in range |
| CalibrationProtocol.RunKeepsTuningInv | seeed-studio-zigbee-energy-meter/src/zigbee_app.c:891-1011 | over any boots, writes and failures the divisor and CC[0] stay in range, the divisor attribute reads back the divisor in use, and the store keeps only accepted values |
| CalibrationProtocol.SettingsFollowWrites | seeed-studio-zigbee-energy-meter/src/zigbee_app.c:891-1011 | over any run, by the events alone: divisor and threshold in use are the last accepted since the last boot, else what it loaded; the width attribute is the last written since then, else what its own load returned |
| CalibrationProtocol.AcceptedWriteTakesEffect | seeed-studio-zigbee-energy-meter/src/zigbee_app.c:932-1010 | right after an accepted write the attribute reads the value written and it is in use |
| CalibrationProtocol.RefusedDivisorLeavesNoTrace | seeed-studio-zigbee-energy-meter/src/zigbee_app.c:966-991 | a divisor write changes nothing if and only if it is refused or repeats the current state |
| CalibrationProtocol.RebootRestoresCalibration | seeed-studio-zigbee-energy-meter/src/zigbee_app.c:731-773 | after any history a boot brings up the last successfully saved divisor and threshold, or the defaults where there is none, it is unacceptable, or it cannot be read |
| CalibrationProtocol.BootWidthsAgreeIff | seeed-studio-zigbee-energy-meter/src/zigbee_app.c:775-791 | register and attribute agree at boot if and only if both loads went the same way or the record makes no difference |
| CalibrationProtocol.BootWidthsCanDiffer | seeed-studio-zigbee-energy-meter/src/zigbee_app.c:775-791 | from an empty store: 2000 us accepted and stored, one failed load, and they differ |
| CalibrationProtocol.WidthAttributeTellsTruthIff | seeed-studio-zigbee-energy-meter/src/zigbee_app.c:908-953 | over any run of boots and writes from a first boot on, the width attribute shows the threshold in use if and only if the last boot or width write was a boot whose two loads agreed or an accepted write |
| CalibrationProtocol.RefusedWidthStaysVisible | seeed-studio-zigbee-energy-meter/src/zigbee_app.c:912-930 | on a new device a refused 50 us stays readable |
| CalibrationProtocol.WidthsSuitTheGate | seeed-studio-zigbee-energy-meter/src/zigbee_app.c:932-938 | every threshold the protocol programs keeps the gate armed unless the timer is past it |
| CalibrationProtocol.U24RoundTrip | seeed-studio-zigbee-energy-meter/src/zigbee_app.c:959-964 | packing and rebuilding a 24-bit value are inverse |
| CalibrationProtocol.MeteringCluster.AttrsInit | seeed-studio-zigbee-energy-meter/src/zigbee_app.c:731-792 | both attributes and the divisor in use come from the store or the defaults |
| CalibrationProtocol.MeteringCluster.OnAttributeWrite | seeed-studio-zigbee-energy-meter/src/zigbee_app.c:891-1011 | commit and callback are the machine's write, and the status tells acceptance |
| BatteryLevel.PercentIsRoundedToNearest | seeed-studio-zigbee-energy-meter/src/battery_level.c:18-24 | within half a unit of the exact percentage, without 32-bit overflow |
| BatteryLevel.PercentIsMonotone | seeed-studio-zigbee-energy-meter/src/battery_level.c:3-25 | a fuller battery never reads lower, for any end points |
| BatteryLevel.WireValuesAreDefined | seeed-studio-zigbee-energy-meter/src/battery_level.c:27-43 | the wire values keep the order, stay within 200 and 254, and are never the unknown sentinel |

## Left out

- ZBOSS, the nrfx drivers, the Zephyr kernel and the NVS file system: foreign calls, present as outcomes of steps.
- PPI sub-cycle order and LPCOMP hysteresis: edges and ticks are taken one at a time.
- Failure of hw_pulse_counter_init and the other fatal branches of main: the device then only shows the fatal pattern, which FatalPattern covers.
- Overflow of the 64-bit total: the run theorems bound the number of events below 2^64; the update itself wraps in the model.
- Torn reads of 64-bit variables between threads: a read or a write is one step.
- Kconfig choices of the two defaults: both are fixed at 1000, which Kconfig sets unless overridden.
- Meter.FlashWearBound: counts writes of the accumulator record; the calibration records are written once per accepted attribute write, as often as a coordinator makes one.
- UserButton.IndicatorAgreesWithReset: edges alternate, handlers are not interrupted and the hold work runs on its deadline; two releases before the dispatch thread runs collapse into the last, which is not modelled.
- HoldIndicator.LitIffReset: the same; FATAL is never cancelled, as in the source, and red of another pattern does not count as the indicator.
- JoinFeedback.OutcomeIsSeenIff: the steering case, flag and repaint, is one step; a hold indicator that comes on within it hides the outcome as one before it does.
- LedController.HaltsIffUncounted: what the processor does after the division by zero is not modelled; nothing runs from there on.
- FatalPattern.AfterCollapse: handlers run on their deadlines; after a second fatal request the ten minutes start anew without a new phase 0, which FatalAlternates and SecondFatalRequest cover.
- Poll Control, turbo polling, USB, logging, the ADC conversion and the Basic and Identify clusters: configuration and input or output.
