# Qubox kernels, modelled and proved in Dafny

Qubox streams desktops and games between machines. Around its codecs, sockets and windows sit a dozen
small kernels with loops, in-place buffers, clocks and crash windows. This project models those kernels and proves,
for every input and every run, what they are for. `dafny verify dfyconfig.toml` checks the whole
project.

| file | what it models |
|---|---|
| `LineRaster.dfy` | the sparkline's integer line drawing: the accumulator loop is the rounded ideal line |
| `GridLayout.dfy`, `TiledView.dfy` | the tiled window: the grid, and the compositor as a function of pixel position |
| `RateControl.dfy`, `RateFeedback.dfy` | the delay-based bitrate controller and the one-second gate in front of the encoder |
| `Subprocess.dfy` | supervision of a child process: sliding window, backoff, event trace |
| `InputCoalescer.dfy` | the input pump that merges waiting mouse moves |
| `HistoryCap.dfy` | the capped history tables as top-k of everything recorded |
| `Framing.dfy`, `Subscription.dfy` | the daemon's frames, its request loop, and the event subscription |
| `FileSync.dfy` | tracked files, vector clocks and the outbox, handlers interleaving between transactions |
| `TufUpdate.dfy` | applying an update and rolling it back, with a crash possible between any two effects |
| `FramePacer.dfy` | when a decoded frame is presented |
| `CaptureOrchestrator.dfy` | which displays are captured; all-or-nothing subscription |
| `Arithmetic.dfy`, `Wrappers.dfy` | shared facts about products and quotients; result types |

Where the Rust code updates state in place, a class or an array method does the same here and is proved
against a function of the old state (`Observe`, `Step`, `Tick`, `Exec`, `Shown`, ...); the lemmas about that function
and its runs carry the results. The world is an argument throughout: poll timings (`ready`), child
behaviour (`Round`), the number of effects before a crash (`budget`), the answers of a capture backend (`open`).

## Properties the code does not have everywhere

Each of these is kept as the code has it, and the exact condition is proved.

- The privacy border spills into the gutters around cells smaller than four pixels on a side
  (`BorderInsideCellIff`); no other cell is ever touched, whatever the sizes (`OneCellMore`).
- Fast start can lower the bitrate. No session does so exactly when the start is not above the maximum and either
  maximum plus step fits 32 bits, or the range is a point, or the first step lands at the minimum and every later one
  wraps back to it; or when the loss limit is negative, so that the first observation ends fast start
  (`FastStartNeverFallsIff`, with wrapping addition as in release builds). A start above the maximum falls at once.
- The bitrate can fall without a panic and without a steep rise of the smoothed delay. No session does so exactly when
  fast start is safe in that sense and either maximum plus increase fits 32 bits, or the range is a point, or the minimum
  is never left after fast start because the increase wraps there and the highest decrease lands on it, or the loss
  limit is negative (`FallsFollowDelayIff`). After fast start it can rise without a steep fall: for a minimum of at least
  4096 bits per second, exactly when the decrease factor is above one, the range no point and the loss limit not
  negative (`RisesFollowDelayIff`).
- The restart backoff is not the capped doubling for every attempt, because `u64` shifts lose the bits of 1000: it is
  exactly for attempts up to 61 and for those with `(attempt - 1) % 64` from 5 to 60 (`BackoffDoubles`). It is zero for
  attempts 62 to 64 and again every 64 attempts (`BackoffInRangeIff`), and attempt 65 waits one second again. The
  default limit of five restarts never gets there.
- After an operator stop, the recorded pid still names the killed child; it is the child's, or zero without one,
  exactly while the lifecycle has not ended that way (`PidIsTrueUnlessStopped`).
- Writers of frames do not check the size limit that readers enforce: a frame is readable exactly when its
  payload is at most 1 MiB (`WrittenFrameIsReadableIff`), and an oversized event ends a
  subscription early (`ExchangeIsLosslessIff`).
- A crash between the first and the third rename of an update leaves no binary at its path, and the start-up check
  puts one there exactly when a sentinel of an earlier update is on disk and within its grace (`PathEmptyIff`, for every
  disk and every time; `CrashThenCheck` gives the whole outcome).
- The check can lose the old binary. It survives, at its path or as backup, exactly under the conditions of
  `OldBinarySurvivesIff`; neither path nor backup holds anything exactly when the crash fell between those renames and an
  earlier update's sentinel has expired (`NothingLeftIff`). A second update before a restart gets there
  (`SecondUpdateCanLoseBoth`).
- A start-up check that crashes and is run again leaves the same binary at the path, except when it had not done
  anything yet and the grace ends, or begins, between the two (`CheckAgainSameBinaryIff`); it may leave the backup behind
  (`CheckAgain`).
- Interleaved handlers can set a file's vector clock back (`InterleavingLosesABump`, a run from the empty store). For
  any store and two requests, an overtaken handler does so exactly when the other one was a change accepted for its file
  and it is a state change of that file or a change accepted from another node (`OvertakenIff`). Over every interleaved run in which no accepted
  change is written while another handler stands between its read and its write of the file, clocks only grow
  (`InterleavedClocksOnlyGrow`); at the first such write the other handler sets the clock back unless both are changes
  by one node (`DisturbedSetsBackIff`). Taken as atomic, handlers never do (`ClocksNeverGoBack`, `ClocksOnlyGrow`).
- At a frame rate whose interval is within the 500 microseconds of tolerance, the pacer presents every call and bounds
  nothing (`NeverSkipsIff`).
- `start_multi_display` restores the running set on failure exactly when none of the displays it lists before the
  failing one was running already (`RollbackRestoresIff`); `subscribe` always does.

## Model

| member | source | states |
|---|---|---|
| LineRaster.DrawLine | apps/qubox-client-cli/src/stats_overlay.rs:656-690 | for all end points the loop terminates, visits exactly max(dx,dy)+1 points, the k-th being the exact line position rounded to the nearest pixel, paints those inside the frame and changes nothing else |
| LineRaster.SetPixel | apps/qubox-client-cli/src/stats_overlay.rs:650-654 | writes the one flat index of a pixel inside the frame, nothing outside it |
| LineRaster.StepFollowsIdeal | apps/qubox-client-cli/src/stats_overlay.rs:680-688 | the two guards on the doubled accumulator step each axis exactly when the rounded ideal line does |
| LineRaster.EndsMeetEndpoints | apps/qubox-client-cli/src/stats_overlay.rs:667-679 | the first ideal point is the start and the last is the end |
| LineRaster.OnlyTheLastIsTheEnd | apps/qubox-client-cli/src/stats_overlay.rs:677-679 | the exit test succeeds on the last point and no earlier |
| LineRaster.WithinHalfPixel | apps/qubox-client-cli/src/stats_overlay.rs:667-688 | no point is further than half a pixel of the longer axis from the exact line |
| LineRaster.InsideBoundingBox | apps/qubox-client-cli/src/stats_overlay.rs:667-688 | every point lies in the bounding box of the end points |
| LineRaster.OnePointPerMajorCoordinate | apps/qubox-client-cli/src/stats_overlay.rs:667-688 | different points have different coordinates on the longer axis, and the other coordinate never changes faster |
| LineRaster.PaintedIffIdeal | apps/qubox-client-cli/src/stats_overlay.rs:674-676 | for a pixel of the frame, being painted by flat index is the same as being one of the ideal points |
| LineRaster.PaintsInsideFrame | apps/qubox-client-cli/src/stats_overlay.rs:650-676 | nothing is painted behind the pixels of the frame, wherever the line goes |
| LineRaster.AccumulatorFitsIsize | apps/qubox-client-cli/src/stats_overlay.rs:666-680 | for coordinates below 2^61 the accumulator, its double, its value between and after the guards, and each coordinate one step around every point never leave the signed 64-bit range |
| GridLayout.TableAgreesWithFormula | apps/qubox-client-cli/src/tiled_view.rs:36-48 | the hand-written table for up to 12 streams is the general near-square formula |
| GridLayout.GridHoldsAllStreams | apps/qubox-client-cli/src/tiled_view.rs:36-48 | the grid has a cell for every stream, no wholly empty row, and is near-square |
| GridLayout.CellsApart | apps/qubox-client-cli/src/tiled_view.rs:61-71 | two different cells are at least the padding apart on one axis, hence disjoint |
| GridLayout.CellInsideWindow | apps/qubox-client-cli/src/tiled_view.rs:49-71 | every cell lies in the window, at least the padding from each edge |
| GridLayout.CellsAreMaximal | apps/qubox-client-cli/src/tiled_view.rs:49-51 | cells one pixel larger would not fit beside their gutters |
| TiledView.Composite | apps/qubox-client-cli/src/tiled_view.rs:153-205 | for any streams and any window that fits its gutters, the painted buffer equals the reference picture at every flat index |
| TiledView.View.Redraw | apps/qubox-client-cli/src/tiled_view.rs:144-212 | in a window that fits its gutters: lays out the grid and leaves the reference picture of the cached frames; the cache is unchanged |
| TiledView.View.RenderFrame | apps/qubox-client-cli/src/tiled_view.rs:130-141 | in a window that fits its gutters: replaces one stream's cached frame and size, then shows the new scene |
| TiledView.CellShowsItsStream | apps/qubox-client-cli/src/tiled_view.rs:153-205 | in the buffer, pixel (dx, dy) of the cell of the k-th stream is pixel (dx*w/cw, dy*h/ch) of the frame cached for that stream's own display, black where there is none, and red exactly at the rim of a stream in privacy state while the indicator is on |
| TiledView.GutterIsBlack | apps/qubox-client-cli/src/tiled_view.rs:144-263 | every pixel outside all cells is black, but for the strips of bordered streams that reach it |
| TiledView.CellsInTheWindow | apps/qubox-client-cli/src/tiled_view.rs:49-71 | where each cell lies and how large it is, in plain arithmetic on the window's sides |
| TiledView.PaintCell | apps/qubox-client-cli/src/tiled_view.rs:169-198 | the nested loops write the scaled sample to every pixel of the cell and nothing else, with every index in range |
| TiledView.DrawRedBorder | apps/qubox-client-cli/src/tiled_view.rs:221-263 | exactly the pixels of the four clipped strips turn red |
| TiledView.OneCellMore | apps/qubox-client-cli/src/tiled_view.rs:155-205 | a stream's cell and border lie in its own slot and find it black, and painting them changes no pixel of another slot, so no later cell overwrites an earlier one |
| TiledView.SlotAtIsTheSlot | apps/qubox-client-cli/src/tiled_view.rs:61-71 | the slot a pixel falls in by division is the only one that geometrically contains it |
| TiledView.ShownByCell | apps/qubox-client-cli/src/tiled_view.rs:155-205 | a pixel of a cell shows that cell's stream; with cells as large as the border every other pixel is black |
| TiledView.BorderInsideCellIff | apps/qubox-client-cli/src/tiled_view.rs:221-263 | the strips stay inside the cell exactly when both sides are at least the border, or the cell is empty |
| TiledView.BorderSpill | apps/qubox-client-cli/src/tiled_view.rs:221-263 | where exactly the strips of a small cell reach outside it |
| TiledView.BorderIsTheRim | apps/qubox-client-cli/src/tiled_view.rs:221-263 | in a large enough cell the strips are the pixels nearer than the border to an edge |
| TiledView.SamplesStayInFrame | apps/qubox-client-cli/src/tiled_view.rs:172-192 | a frame with all its announced pixels is sampled inside itself |
| TiledView.ScaleIsProportional | apps/qubox-client-cli/src/tiled_view.rs:183-186 | scaling keeps order, and proportion to within one source pixel |
| TiledView.SameSizeIsCopied | apps/qubox-client-cli/src/tiled_view.rs:172-192 | a frame as large as its cell is copied pixel for pixel |
| RateControl.GccRateController.OnObservation | apps/qubox-host-agent/src/rate_control.rs:138-229 | the method's whole effect on the controller is the step function the session lemmas are about |
| RateControl.TargetStaysInRange | apps/qubox-host-agent/src/rate_control.rs:138-229 | from the first observation on, the target is within the configured bounds, on every session |
| RateControl.PanicHoldsMinimum | apps/qubox-host-agent/src/rate_control.rs:152-171 | a panic pins the target to the minimum for every observation inside the freeze |
| RateControl.FreezeIsExact | apps/qubox-host-agent/src/rate_control.rs:152-171 | without a later panic the freeze ends exactly its length after the panic |
| RateControl.ThawedTargetRises | apps/qubox-host-agent/src/rate_control.rs:152-222 | at the first sample after it, with the reaction interval over, a steep fall of the delay raises the target by one step |
| RateControl.UndueAnswer | apps/qubox-host-agent/src/rate_control.rs:163-188 | a sample inside the freeze or too soon after a change decides nothing; the freeze is left as soon as it is over, and the verdict is still taken outside it |
| RateControl.DueAnswer | apps/qubox-host-agent/src/rate_control.rs:173-253 | when a reaction is due, the gradient of the smoothed delay alone says whether the target is multiplied, stepped by the fast-start or the normal step, or kept, before it is bounded |
| RateControl.ChangesAreSpaced | apps/qubox-host-agent/src/rate_control.rs:173-188 | changes other than panics are at least the reaction interval after any earlier change |
| RateControl.FastStartNeverReturns | apps/qubox-host-agent/src/rate_control.rs:190-206 | fast start, once left, is never entered again |
| RateControl.FastStartNeverFallsIff | apps/qubox-host-agent/src/rate_control.rs:190-206 | for every valid configuration: no session lowers the target while fast start lasts, exactly under a condition on the configuration alone |
| RateControl.FastStartOnlyGrows | apps/qubox-host-agent/src/rate_control.rs:190-206 | under that condition, the target at any two moments of fast start, on any session, is in order |
| RateControl.FastStartRamps | apps/qubox-host-agent/src/rate_control.rs:190-206 | n calm, spaced samples from a start in range raise the target by exactly n steps, up to the maximum, unless a step wraps |
| RateControl.FallsFollowDelayIff | apps/qubox-host-agent/src/rate_control.rs:138-229 | for every valid configuration: on every session the bitrate falls only in a panic or after a steep rise of the smoothed delay, exactly under a condition on the configuration alone |
| RateControl.RisesFollowDelayIff | apps/qubox-host-agent/src/rate_control.rs:138-229 | for every valid configuration with a minimum of at least 4096: on every session the bitrate rises only in fast start or after a steep fall, exactly if nothing can rise or the decrease factor is at most one |
| RateControl.ChangesFollowDelay | apps/qubox-host-agent/src/rate_control.rs:207-222 | both halves together, where falls are safe and no decrease raises a target of the range |
| RateControl.SteepDelayMovesTarget | apps/qubox-host-agent/src/rate_control.rs:173-222 | when a reaction is due, a steep rise ends fast start and lowers the target exactly if it is above the minimum and the factor lowers it; a steep fall raises it exactly if it is below the maximum and the step is positive and does not wrap |
| RateControl.SmoothingIgnoresDecisions | apps/qubox-host-agent/src/rate_control.rs:145-150 | every sample enters the moving average exactly once, whatever is frozen or skipped |
| RateControl.EwmaClosedForm | apps/qubox-host-agent/src/rate_control.rs:145-150 | under a constant delay the distance of the average shrinks by a factor 0.9 per sample |
| RateControl.NormalAfterNineteen | apps/qubox-host-agent/src/rate_control.rs:231-253 | after at most 19 samples of a constant delay every sample classifies as Normal |
| RateControl.BitrateSettles | apps/qubox-host-agent/src/rate_control.rs:138-253 | after those 19 samples, outside fast start and without panic, the target never changes again |
| RateControl.NineteenIsTight | apps/qubox-host-agent/src/rate_control.rs:231-253 | a concrete session still classifies as Underuse at its 19th constant sample |
| RateFeedback.RateFeedbackLoop | apps/qubox-host-agent/src/rate_feedback.rs:29-109 | the loop emits exactly what the gate emits on the feedback messages among its input |
| RateFeedback.FeedbacksInOrder | apps/qubox-host-agent/src/rate_feedback.rs:56-72 | every feedback message is observed, in its place, and no other message is |
| RateFeedback.SettledOrRecent | apps/qubox-host-agent/src/rate_feedback.rs:78-107 | after every feedback the encoder runs at the controller's target or was changed less than a second ago |
| RateFeedback.EncoderSettles | apps/qubox-host-agent/src/rate_feedback.rs:57-107 | after 19 samples of a constant delay outside fast start, with tolerable loss, the loop emits at most once more, the settled target, and from the first feedback a second after its last emission the encoder runs at that target forever |
| RateFeedback.EmissionsAreSpaced | apps/qubox-host-agent/src/rate_feedback.rs:78-107 | consecutive emissions differ and are at least a second apart |
| RateFeedback.EmissionsAreTargets | apps/qubox-host-agent/src/rate_feedback.rs:70-107 | every emission is the controller's answer to one feedback, at its time |
| RateFeedback.EmissionsStayInRange | apps/qubox-host-agent/src/rate_feedback.rs:70-107 | the encoder is only ever given bitrates inside the bounds |
| Subprocess.ManagedSubprocess.RunToCompletion | apps/qubox-daemon/src/subprocess.rs:122-242 | against any sequence of rounds, child, pid, history and events end as the lifecycle function says |
| Subprocess.ManagedSubprocess.RecordExit | apps/qubox-daemon/src/subprocess.rs:172-185 | the pruning loop keeps the suffix of the deque inside the window, adds the new exit and counts |
| Subprocess.AttemptIsWindowCount | apps/qubox-daemon/src/subprocess.rs:171-203 | the attempt is the number of exits of the full history inside the window, and giving up is decided by it alone |
| Subprocess.RecentCounts | apps/qubox-daemon/src/subprocess.rs:172-185 | that number is the number of positions of the history whose exit lies in the window |
| Subprocess.RoundReports | apps/qubox-daemon/src/subprocess.rs:122-242 | the exact events, child and pid after one round: a stop, a surrender with the exit's code and reason, or a restart with attempt and backoff and the child that came of it |
| Subprocess.RestartsAreRateLimited | apps/qubox-daemon/src/subprocess.rs:171-203 | no closed interval as long as the window holds more than the maximum number of exits that led to a restart |
| Subprocess.CrashLoopGivesUp | apps/qubox-daemon/src/subprocess.rs:171-221 | when every child crashes by itself, no earlier exit gives up, and the exit after the last allowed restart does exactly if the span of the exits fits the window; for any backoff schedule |
| Subprocess.LongLivedNeverGivesUp | apps/qubox-daemon/src/subprocess.rs:171-203 | if every child outlives the window, the lifecycle never gives up, exactly when restarts are allowed at all |
| Subprocess.BackoffDoubles | apps/qubox-daemon/src/subprocess.rs:205-206 | the backoff is the doubling from one second, capped at thirty, exactly for attempts up to 61 and those whose shift count modulo 64 is 5 to 60 |
| Subprocess.BackoffInRangeIff | apps/qubox-daemon/src/subprocess.rs:205-206 | the backoff is within one and thirty seconds exactly while the shift has not lost every bit, and zero otherwise |
| Subprocess.TraceIsWellFormed | apps/qubox-daemon/src/subprocess.rs:94-242 | the trace is Spawned (Exited Restarting Spawned)* with one of three endings, and spawns minus exits is one exactly while a child is held or was stopped |
| Subprocess.NothingAfterTheEnd | apps/qubox-daemon/src/subprocess.rs:122-203 | no event follows the end of a lifecycle |
| Subprocess.PidIsTrueUnlessStopped | apps/qubox-daemon/src/subprocess.rs:122-262 | on every run with positive pids the recorded pid is the child's, or zero without one, exactly if no operator stop ended the lifecycle |
| InputCoalescer.InputPump.NextOutboundInputEvent | apps/qubox-client-cli/src/runtime.rs:903-930 | one event is sent and the rest of the run is unchanged; the slot never holds a mouse move |
| InputCoalescer.InputPump.SendInputEvents | apps/qubox-client-cli/src/main.rs:2316-2333 | the loop sends the pump's stream, or the part of it before the first failed send |
| InputCoalescer.SentIsCoalescing | apps/qubox-client-cli/src/main.rs:2786-2813 | for every timing, the sent stream is the input less mouse moves that another mouse move follows at once |
| InputCoalescer.CoalescingIsSent | apps/qubox-client-cli/src/runtime.rs:903-930 | every such stream is sent under some timing |
| InputCoalescer.NeverReadySendsAll | apps/qubox-client-cli/src/runtime.rs:903-930 | if nothing is ever waiting, everything is sent as it was typed |
| InputCoalescer.AlwaysReadyMerges | apps/qubox-client-cli/src/runtime.rs:903-930 | if everything is always waiting, no two mouse moves are sent in a row |
| InputCoalescer.OneEventMore | apps/qubox-client-cli/src/runtime.rs:761-773 | what the meaning of a stream is, event by event: where the cursor goes, and what takes effect where |
| InputCoalescer.CoalescingKeepsMeaning | apps/qubox-client-cli/src/runtime.rs:903-930 | dropping such moves keeps every other event, its order, the cursor it happens at, and the final cursor |
| InputCoalescer.PumpKeepsMeaning | apps/qubox-client-cli/src/runtime.rs:761-773 | what the user did is preserved under every timing |
| HistoryCap.HistoryTable.EnforceCap | apps/qubox-daemon/src/state.rs:743-758 | removing the first keys in order leaves the entries with the largest keys |
| HistoryCap.HistoryTable.Record | apps/qubox-daemon/src/state.rs:377-387 | after each record the table is the top of everything recorded so far |
| HistoryCap.TableIsTopOfEverything | apps/qubox-daemon/src/state.rs:403-413 | for any records, in any key order and with repeats, the table holds the largest keys ever recorded with their last values |
| HistoryCap.EverythingKeepsLast | apps/qubox-daemon/src/state.rs:377-387 | a key counts as recorded exactly if a record has it, and its value is that of the last such record |
| HistoryCap.TopIsTheLargest | apps/qubox-daemon/src/state.rs:743-758 | the top of a table holds entries of it, as many as the cap allows, and no key outside it is larger than one inside |
| HistoryCap.TopOfTop | apps/qubox-daemon/src/state.rs:743-758 | an entry evicted early could never have come back |
| HistoryCap.TableSize | apps/qubox-daemon/src/state.rs:743-758 | the table never exceeds the cap and is full once enough keys were seen |
| Framing.DecodeAcceptsExactlyEncodings | apps/qubox-daemon/src/ipc.rs:466-502 | decode accepts exactly the 20-byte images of encode with legal fields, and returns those fields |
| Framing.RejectsInOrder | apps/qubox-daemon/src/ipc.rs:476-502 | a header is rejected for the first of magic, version and length that is wrong, and the error names the value |
| Framing.Fields | apps/qubox-daemon/src/ipc.rs:466-474 | each field occupies its own bytes of the header |
| Framing.LeByteAt | apps/qubox-daemon/src/ipc.rs:466-474 | integers are written least significant byte first |
| Framing.ReadInvertsWrite | apps/qubox-daemon/src/ipc.rs:727-743 | a frame is read off a stream exactly when the stream starts with the bytes of that legal frame |
| Framing.WrittenReadsAs | apps/qubox-daemon/src/ipc.rs:727-743 | what a reader makes of any frame a writer wrote, whatever its size: a rejection, or the payload cut at its length modulo 2^32 |
| Framing.WrittenFrameIsReadableIff | apps/qubox-daemon/src/ipc.rs:1868-1887 | what a writer writes is read back exactly when the payload is within the limit |
| Framing.FramingRoundTrip | apps/qubox-daemon/src/ipc.rs:455-502 | any list of frames within the limit, written back to back, reads back as that list |
| Framing.TakeIsTheLongestPrefix | apps/qubox-daemon/src/ipc.rs:727-776 | on any byte stream the frames taken are the unique acceptable list the stream starts with and that cannot be continued |
| Framing.HandleConnection | apps/qubox-daemon/src/ipc.rs:727-776 | the server loop dispatches exactly the frames of kind 1 with a readable payload that the stream begins with, however it is cut into them |
| Framing.DispatchesRequests | apps/qubox-daemon/src/ipc.rs:745-775 | a stream of readable frames of kind 1, up to anything that is not one more, is dispatched exactly as those frames |
| Subscription.PushEvents | apps/qubox-daemon/src/ipc.rs:1237-1272 | the handler writes the acknowledgement, the events in order and the terminal response |
| Subscription.StreamIsWire | apps/qubox-daemon/src/ipc.rs:1237-1272 | its stream is, frame by frame, a response, one event frame for each event with its payload, and a response, all with the request's correlation id |
| Subscription.Subscribe | apps/qubox-daemon/src/ipc.rs:2135-2181 | the client's reads return what the reference reader returns, on any byte stream |
| Subscription.CollectsFrame | apps/qubox-daemon/src/ipc.rs:2155-2178 | each further frame ends the client's loop, adds its event, or is skipped |
| Subscription.FailsOnBadHeader | apps/qubox-daemon/src/ipc.rs:2143-2153 | the client fails exactly on a first header with a wrong magic, a wrong version or too large a length, and with that error |
| Subscription.ExchangeDelivers | apps/qubox-daemon/src/ipc.rs:1237-1272 | reading the handler's stream yields its events, up to the first too large to frame |
| Subscription.ClientStopsAtTerminal | apps/qubox-daemon/src/ipc.rs:1267-1271 | the client returns at the terminal response, with the same events whatever follows on the connection |
| Subscription.DeliveredIsLongest | apps/qubox-daemon/src/ipc.rs:1237-1272 | the events delivered are the longest front of the list whose payloads are within 1 MiB |
| Subscription.ExchangeIsLosslessIff | apps/qubox-daemon/src/ipc.rs:2135-2181 | the exchange yields exactly the event list exactly when every event fits a frame |
| Subscription.CutYieldsPrefix | apps/qubox-daemon/src/ipc.rs:2135-2181 | a stream cut anywhere yields, without error, exactly the delivered events whose frames end within the bytes that arrived |
| FileSync.JobsNameTrackedFiles | apps/qubox-daemon/src/ipc.rs:1553-1742 | over every interleaving of transactions, failures included, the file of every outbox job is tracked |
| FileSync.ClocksNeverGoBack | apps/qubox-daemon/src/ipc.rs:1666-1742 | a handler taken as atomic never forgets a file or sets its vector clock back |
| FileSync.ClocksOnlyGrow | apps/qubox-daemon/src/ipc.rs:1386-1742 | over any serial run of handlers a file once tracked stays tracked and its vector clock only grows |
| FileSync.CompleteMovesClock | apps/qubox-daemon/src/ipc.rs:1666-1742 | a request handled as a whole bumps a tracked file's clock if it is a change accepted for it, and otherwise leaves the clock alone |
| FileSync.InterleavingLosesABump | apps/qubox-daemon/src/ipc.rs:1386-1394 | a run from the empty store with fresh ids: a lock request that read before a change was recorded writes the old clock back |
| FileSync.OvertakenIff | apps/qubox-daemon/src/ipc.rs:1386-1742 | for any store and two requests with fresh ids: the one overtaken between its read and its write sets a file's clock back exactly when the other was a change accepted for that file, and it is a state change of it or a change accepted from another node |
| FileSync.InterleavedClocksOnlyGrow | apps/qubox-daemon/src/ipc.rs:1386-1742 | over every interleaving with fresh ids, failures included, in which no accepted change is written while another handler stands between reading and writing its file, clocks only grow |
| FileSync.DisturbedSetsBackIff | apps/qubox-daemon/src/ipc.rs:1386-1742 | at the first such write of such a run, the other handler's write sets the clock back exactly when it is not a change by the same node |
| FileSync.OneJobPerAcceptedChange | apps/qubox-daemon/src/ipc.rs:1666-1742 | after any changes and lock changes each path has one file, with its last accepted content; its queued jobs are those of its accepted changes, one each and for their peers; and its clock counts them node by node |
| FileSync.StateDb.SyncFileChanged | apps/qubox-daemon/src/ipc.rs:1666-1742 | the handler's whole effect on both tables is that of its transactions; the job it returns is the one queued, new, for the file and the peer |
| FileSync.ChangeOfKnownPath | apps/qubox-daemon/src/ipc.rs:1686-1737 | a change of a tracked path is refused exactly if ignored, unreadable, locked or not new; else the file, and no other, gets the content, one bump of the node and `Pending`, and exactly one job is queued for it and the peer |
| FileSync.ChangeOfNewPath | apps/qubox-daemon/src/ipc.rs:1686-1737 | a readable change of a new path tracks one file, with clock 1 for the node alone, and queues one job |
| FileSync.StateDb.SetState | apps/qubox-daemon/src/ipc.rs:1386-1394 | rewrites the state of that tracked file and nothing else, or reports that there is none |
| FileSync.StateDb.SyncUpdateJob | apps/qubox-daemon/src/ipc.rs:1553-1585 | rewrites the status of that job and nothing else; a failure is one more retry, up to the largest `u32` |
| FileSync.RetryAndDelete | apps/qubox-daemon/src/ipc.rs:1587-1609 | a retry queues the job again as one more retry, a dismissal takes it out, and neither touches a file |
| FileSync.StateDb.EnqueueManualPush | apps/qubox-daemon/src/state.rs:698-732 | a readable push tracks one new file, pending, with clock 1 for the node, and queues one job for it and the peer; an unreadable one changes nothing |
| FileSync.StateDb.FindTracked | apps/qubox-daemon/src/ipc.rs:1686-1690 | finds the first tracked file of a path in key order, if there is one |
| FileSync.FindsTheFirst | apps/qubox-daemon/src/ipc.rs:1686-1690 | what is found is the tracked file of the path with the smallest key, and nothing exactly if there is none |
| TufUpdate.Updater.ApplyUpdate | apps/qubox-daemon/src/tuf.rs:266-356 | the disk holds the first effects of the update up to the crash or error, and success is reported exactly when all happened |
| TufUpdate.Startup.CheckRollback | apps/qubox-daemon/src/tuf.rs:376-420 | the start-up check's effects on the disk, in order, up to a crash or a failed rename, whichever files cannot be removed |
| TufUpdate.RollsBackIff | apps/qubox-daemon/src/tuf.rs:376-420 | the check rolls back exactly if sentinel and backup are there and the sentinel's time is known and not a minute old |
| TufUpdate.CrashSafe | apps/qubox-daemon/src/tuf.rs:266-356 | at every crash point the old binary is whole at its path or the backup, the path holds old or new or nothing, and the new binary is whole somewhere |
| TufUpdate.ApplyThenCheck | apps/qubox-daemon/src/tuf.rs:376-420 | after a completed update the check restores the old binary within the grace period and keeps the new one later, clearing sentinel and backup |
| TufUpdate.CheckTwice | apps/qubox-daemon/src/tuf.rs:376-420 | a second check, at any later time, changes nothing |
| TufUpdate.CheckIsItsEffects | apps/qubox-daemon/src/tuf.rs:376-420 | with no crash and nothing that cannot be removed, the effects together are the check the other results speak of |
| TufUpdate.CheckAgain | apps/qubox-daemon/src/tuf.rs:376-420 | a check crashed at any effect, or unable to remove files, and another later leave what one whole check leaves, but for a backup left behind |
| TufUpdate.CheckAgainSameBinaryIff | apps/qubox-daemon/src/tuf.rs:376-420 | the crash changes the binary at the path exactly when nothing had happened yet, the grace changed between the two checks and the backup differs |
| TufUpdate.CrashThenCheck | apps/qubox-daemon/src/tuf.rs:266-420 | for every disk, crash point and time of the check: what is at the binary's path and its backup afterwards, the sentinel gone, every other file as the crash left it |
| TufUpdate.PathEmptyIff | apps/qubox-daemon/src/tuf.rs:266-420 | for every disk and time: the path is empty afterwards exactly when the crash fell between moving the old binary away and the last rename, unless an older sentinel within its grace restores a backup |
| TufUpdate.OldBinarySurvivesIff | apps/qubox-daemon/src/tuf.rs:266-420 | for every disk and time: the exact condition under which the old binary is at its path or its backup afterwards |
| TufUpdate.NothingLeftIff | apps/qubox-daemon/src/tuf.rs:266-420 | for every disk and time: path and backup are both empty exactly when the crash fell between the first and the third rename and an older sentinel has expired |
| TufUpdate.SecondUpdateCanLoseBoth | apps/qubox-daemon/src/tuf.rs:266-420 | a completed update, a second one crashing amid its renames and a check past the first one's grace leave neither binary |
| TufUpdate.SuffixIsAppended | apps/qubox-daemon/src/tuf.rs:278-304 | however many dots a file name has, replacing the extension by extension and suffix appends the suffix to the whole name |
| TufUpdate.SuffixesDiffer | apps/qubox-daemon/src/tuf.rs:278-304 | for every named binary, backup and intermediate path are three different files in one directory, and the last two are never a sentinel |
| FramePacer.FramePacer.ShouldPresent | apps/qubox-client-cli/src/frame_pacing.rs:112-143 | the decision and the whole new state of one call; the first call presents whatever the interval |
| FramePacer.PresentsAreSpaced | apps/qubox-client-cli/src/frame_pacing.rs:112-143 | on every run every call presents or skips, and presents are never closer than the interval less 500 microseconds |
| FramePacer.RateIsBounded | apps/qubox-client-cli/src/frame_pacing.rs:112-143 | with an interval above the tolerance, frames presented after the first are at most the elapsed time over the interval less the tolerance |
| FramePacer.NeverSkipsIff | apps/qubox-client-cli/src/frame_pacing.rs:79-143 | every call of every run presents exactly when the interval is within the tolerance |
| FramePacer.SkipsOnlyWhenEarly | apps/qubox-client-cli/src/frame_pacing.rs:112-130 | after every call a frame was presented just now, or too recently for another to be due |
| FramePacer.IntervalPositiveIff | apps/qubox-client-cli/src/frame_pacing.rs:79-84 | the interval the pacer divides by is positive exactly below two billion frames a second |
| FramePacer.IntervalIsNearest | apps/qubox-client-cli/src/frame_pacing.rs:79-84 | the interval is one second over the rate to the nearest nanosecond, ties to even, and 16 ms without a rate |
| CaptureOrchestrator.CaptureOrchestrator.Subscribe | apps/qubox-host-agent/src/capture_orchestrator.rs:150-171 | all displays join, or the running set is exactly what it was, handles included; the error names the first display that cannot start |
| CaptureOrchestrator.CaptureOrchestrator.StartMultiDisplay | apps/qubox-host-agent/src/capture_orchestrator.rs:117-136 | all displays join, or every listed display before the failing one is stopped |
| CaptureOrchestrator.RollbackStopsListed | apps/qubox-host-agent/src/capture_orchestrator.rs:117-136 | after that rollback a display runs exactly if it ran before and is not listed before the failing one, with its old handle |
| CaptureOrchestrator.RollbackRestoresIff | apps/qubox-host-agent/src/capture_orchestrator.rs:117-136 | that rollback restores the running set exactly when none of those displays was running before |
| CaptureOrchestrator.CaptureOrchestrator.StartDisplayInner | apps/qubox-host-agent/src/capture_orchestrator.rs:372-508 | a running display is left alone, a failing one changes nothing, any other joins |
| CaptureOrchestrator.CaptureOrchestrator.Stop | apps/qubox-host-agent/src/capture_orchestrator.rs:185-191 | nothing runs afterwards |

## Left out

- DrawLine: coordinates are unbounded integers; `AccumulatorFitsIsize` shows that the loop's accumulator and coordinates agree with the machine's below 2^61. The flat index of a painted pixel is below the length of the frame.
- Scale: the source divides and multiplies in `f64`, which for some sizes lands one source pixel lower than the exact integer quotient used here.
- CeilSqrt: the source takes the `f64` square root, which is exact for any stream count that fits a window.
- Fits: windows too small for their gutters underflow the source's unsigned subtraction and are excluded; the `u32` product of the window's sides is unbounded here.
- Redraw: the window's size, the stream list and the privacy indicator are arguments, read once per redraw; handing the buffer to the window is not modelled.
- Observe: delays are unbounded reals and the moving average is exact, so neither rounding nor not-a-number delays are modelled; the decrease is exact for factors up to 2^21 and saturates like the cast.
- RisesFollowDelayIff: minimums under 4096 bits per second, where a factor just above one raises only some targets and which of them a session meets depends on the steps.
- AddU32: addition wraps as in release builds; debug builds panic where it would wrap.
- Shl64: the shift count is taken modulo 64 as in release builds; debug builds panic from attempt 65 on.
- RateFeedbackLoop: receive errors end the loop like a closed channel; the round-trip time is unused by the controller and dropped.
- Step: killing and reaping a child, the broadcast channel's capacity and the `SubprocessManager` registry, whose two operations insert and remove a label.
- SendAll: the awaiting of an empty open channel is where a run pauses; a paused run is a prefix of the modelled one.
- Effects: scaling of coordinates and clamping to the screen happen in the host's injector and are the same for both streams.
- HandleConnection: the peer-credential check, and write failures while a request is being answered.
- Measurable: events of 4 GiB or more whose length modulo 2^32 is within the limit; `WrittenReadsAs` says how their frame is cut, what the client makes of the rest depends on its bytes.
- PushEvents: events lost to a lagging subscriber never reach the handler's loop and are not in its event list; serialising an event always succeeds here.
- TrackedFile: size, rule and timestamp columns; error texts of jobs; sync rules, ignore patterns and the conflict table.
- FreshFile: random identifiers are taken as fresh, here and in `FreshArrival`.
- Rollback: the check with every removal successful; failed removals, a failed rename and crashes are in `CheckRollback` and `CheckAgain`, a single file's removal or rename being whole or not at all.
- Separate: the staged file is none of the binary's own paths and neither is named like the sentinel; a path without a file name is no binary; links, case-insensitive names and extensions that are not Unicode are not modelled.
- Tick: the smoothed interval and frame-rate statistics, which do not feed back into any decision.
- TargetInterval: one second over the rate is rounded exactly rather than through `f64`.
- StartDisplayInner: the capture session, encoder and connection behind a started display.
- Sockets, codecs, windows, input injection, cryptography, pairing, permissions, telemetry and the rest of the overlay.
