# Trading core: a verified model

This project models the hand-written protocol, accounting and state-machine
code of a trading system and proves properties of it over all inputs, runs and
reachable states.

| module | models |
|---|---|
| `Text`, `Sequences`, `Optional`, `Market` | string searching, splitting and number printing as the wire code uses them; ascending lists and the stable sort; shared names |
| `FixMessage` | FIX 4.4 tag=value messages: the ordered field dictionary, printer and parser |
| `FixFraming` | cutting frames out of a byte stream that arrives in arbitrary pieces |
| `FixSession` | numbering and sending messages, the scan loop and the read loop |
| `SequenceTracker`, `DataSync` | received numbers, high-water mark and gap list; status per symbol |
| `CircuitBreaker`, `Retry` | the timed three-state breaker and the retry loop around it |
| `LiveEngine` | admission of orders to the live engine, its counters and its drawdown halt |
| `StreamCache` | the market-data cache, its symbol index, eviction and look-ups |
| `BackpressureQueue` | the bounded, throttled queue in front of the cache |
| `Accounting`, `Positions` | fills, weighted averages, trades and profit; the position objects |
| `Simulation`, `OrderDesk`, `Execution` | orders and simulated matching as a state machine; the order manager under fills of any size; the order objects |
| `Backtest` | replay of historical bars of many symbols |
| `PositionSync` | comparing and reconciling local positions with the broker's |
| `Aggregator` | building bars from ticks, one tick at a time |
| `OrderRouter` | splitting an order over brokers; taking brokers in turn |
| `Drawdown` | maximum drawdown of an equity curve and its length |

Code that updates objects appears twice: as a class whose methods carry the
loops and assignments, and as functions on values that the methods are proved
equal to. The theorems are lemmas about these functions and about runs of them.
`Decimal` and `float` are `real`, times are `int` or `real` numbers handed in by
the caller, wire bytes are characters, and an `async` method is one step between
two awaits. Random draws, clock readings, call results and cost formulas are
parameters.

## Results in short

* A stream of FIX messages, cut into reads in any way, arrives message by
  message, in order and complete, with nothing left over
  (`FixFraming.StreamRoundTrip`); `FixFraming.RoundTripIff` says for which
  messages, and `FixFraming.ChunkInvariance` holds for arbitrary bytes.
* The received set, high-water mark and gap list describe exactly what is
  missing in every reachable state (`SequenceTracker.ReachableInv`,
  `SequenceTracker.MissingExact`), independently of the order of delivery
  (`SequenceTracker.OrderIndependence`).
* Openings of a breaker are a cooldown apart, no call starts meanwhile, and the
  retry loop stops after an exactly known number of calls
  (`CircuitBreaker.OpeningsApart`, `CircuitBreaker.NoCallDuringCooldown`,
  `Retry.RetryMeetsBreaker`); each of its states is left exactly when its history
  of failures, successes and openings says so (`CircuitBreaker.FailuresOpenIff`,
  `CircuitBreaker.CooldownDecides`, `CircuitBreaker.ProbesDecide`).
* With `c` overlapping submissions the daily counts are exceeded by at most
  `c - 1`, and that bound is reached for every limit of at least one trade
  (`LiveEngine.CountsBounded`, `LiveEngine.OverlapReachesBound`); count and volume
  are those of the submissions accepted since the change of day
  (`LiveEngine.CountersCountAccepted`).
* Books balance at every mark price exactly when no fill closes more than is
  open (`Accounting.BalancedIff`), and simulated order matching keeps orders,
  positions and books consistent (`Simulation.ReachableValid`,
  `Simulation.NetPosition`). Trades and positions are exactly those of the fills
  (`Accounting.TradesAre`, `Accounting.PositionLife`), and fills those of the
  orders that a tick meets (`Simulation.TickDecides`, `Simulation.TickFills`).
* The cache look-up equals a full scan (`StreamCache.Cache.Get`), the queue
  conserves and orders its entries (`BackpressureQueue.RunSound`), the replay is
  a complete merge exactly when no time is shared by more bars than listings
  (`Backtest.ReplayCompleteIff`), reconciliation converges in one pass
  (`PositionSync.OnePassConverges`), streamed bars are batch bars exactly for
  ordered ticks (`Aggregator.StreamIsBatchIff`), order splits conserve quantity
  up to a tight bound (`OrderRouter.WeightedOvershoot`), and the one-pass
  drawdown is the maximum over all pairs (`Drawdown.PairMaximum`).

## Where the code falls short of its documentation

The model follows the code. Each point is a proved statement.

* A FIX message without body fields prints BodyLength 1 for an empty body
  (`FixMessage.EncodeConformsIff`); values with spaces do not survive parsing
  (`FixMessage.ParseEncodeIff`); a tag such as 710 or 110, or a value containing
  `10=`, cuts a frame short (`FixFraming.FrameEndIff`,
  `FixFraming.LooksLikeTrailerIff`); a header without an integer BodyLength stops
  the reader for good (`FixFraming.StuckIff`). A failed send uses up its sequence
  number, and when draining fails its bytes are on the wire without being counted
  (`FixSession.FIXSession.Send`).
* The completion rate exceeds 1 exactly when more numbers below 1 were accepted
  than are missing (`SequenceTracker.RateBoundedIff`; a feed numbered from 0 in
  `SequenceTracker.RateAboveOne`); the published missing total counts a partly
  filled gap in full (`DataSync.TotalMissingOverstates`).
* A manual reset of a breaker voids the cooldown
  (`CircuitBreaker.ResetVoidsSeparation`), and nothing else does
  (`CircuitBreaker.CloseOpeningsNeedReset`).
  `half_open_max_calls` is never enforced, so no limit on probes is claimed.
* A drawdown halts the checks only: what waited for its answer at the tick is still
  accepted inside the cooldown (`LiveEngine.WaitingAcceptedInHalt`), and nothing
  else is (`LiveEngine.HaltAcceptsOnlyWaiting`).
* A paused live engine is documented as taking no new orders, but pausing refuses
  none and skips the risk check (`LiveEngine.PauseRefusesNothing`), and there are
  runs that trade while paused (`LiveEngine.StandbyAdmits`).
* Cache keys name the ticker only, so two symbols of one ticker can corrupt the
  index (`StreamCache.InsertKeepsIndexIff`, `StreamCache.CollisionUnguarded`). This
  needs duplicate suppression off, or a hash that has been forgotten: while no hash
  is, suppression refuses the second datum (`StreamCache.DedupGuardsIndex`,
  `StreamCache.CollisionGuarded`). The queue's drop policy can never
  be reached from capacity 5 on (`BackpressureQueue.FullReachableIff`), and a low
  watermark of zero can pause the queue for good
  (`BackpressureQueue.NeverStuckIff`).
* Slippage is added after matching: limits are kept for all orders and ticks
  exactly when no slippage is ever charged (`Simulation.LimitsAlwaysKeptIff`), and
  otherwise some run fills a limit order beyond its limit
  (`Simulation.BeyondLimitReached`). Simulated matching never fills a stop-limit
  order (`Simulation.StopLimitNeverFills`).
* A fill that reaches a cancelled order and leaves some of it open makes the order
  active again, outside the set of active ids (`OrderDesk.ActiveExactIff`,
  `OrderDesk.CancelledRevived`).
* A timestamp shared by more bars of a series than its symbol is listed loses the
  rest of the series (`Backtest.WholeSeriesIff`). A second run without reloading
  emits nothing (`Backtest.SpentReplay`).
* A local position unknown to the broker is dropped from the lookup map only, so
  every later synchronisation of the caller's objects reports it again
  (`PositionSync.StaleStaysReported`).
* A proportional split through the split route always fails, since that route
  passes no weights (`OrderRouter.SplitRouteIs`), and a small order can be
  inflated by a weighted split (`OrderRouter.SmallOrderInflated`).
* The one-pass drawdown measures from the running peak only. A value below zero
  after a smaller positive value than the peak shows a deeper fall that it does
  not see (`Drawdown.FallIsPairMaximumIff`, `Drawdown.BelowZeroUnderstated`).

## Model

| member | source | states |
|---|---|---|
| FixMessage.LookupPut | src/protocols/fix_handler.py:324-335 | after `set`, the tag looks up the new value and every other tag what it did before |
| FixMessage.PutTags | src/protocols/fix_handler.py:324-330 | `set` keeps all tags and their order; a tag that is new becomes the last one |
| FixMessage.LookupDrop | src/protocols/fix_handler.py:350-352 | `remove` hides its tag and no other |
| FixMessage.DropIs | src/protocols/fix_handler.py:350-352 | `remove` takes out one field and keeps the order of the others |
| FixMessage.EncodeIsPrinted | src/protocols/fix_handler.py:392-407 | the printed text is the ordered fields, with 8 defaulted and 9 and 10 computed, each ended by SOH |
| FixMessage.BodyIs | src/protocols/fix_handler.py:394-398 | the body holds the fields of all tags but 8, 9 and 10, each once and in their order |
| FixMessage.ChecksumIs | src/protocols/fix_handler.py:409-411 | the checksum is the last of the running totals of all character codes, modulo 256 |
| FixMessage.EncodeConformsIff | src/protocols/fix_handler.py:392-411 | the printed BodyLength is the count from after its SOH through the SOH before tag 10 and the CheckSum is the character codes before tag 10 added up modulo 256, exactly when the message has a field besides 8, 9 and 10 |
| FixMessage.ParsePairFieldText | src/protocols/fix_handler.py:309-315 | parsing the text of one field gives the field back, also for negative tags |
| FixMessage.ParsePairIff | src/protocols/fix_handler.py:309-315 | a piece is a field exactly when an integer stands before its first '=', and its value is all that follows |
| FixMessage.LastPairCounts | src/protocols/fix_handler.py:309-316 | of several pieces with one tag the last one counts, and a tag without a readable piece is absent |
| Text.StripIs | src/protocols/fix_handler.py:307 | stripping takes white space off both ends, and all of it |
| Text.ParseNatIs | src/protocols/fix_handler.py:312 | the unsigned integers are the digits with single underscores between digits, read from the left |
| Text.ParseIntIs | src/protocols/fix_handler.py:312 | an integer is read with white space around it and one sign before it |
| Text.ParseIntNeeds | src/protocols/fix_handler.py:312 | and nothing else is read as one |
| FixMessage.ParsedClean | src/protocols/fix_handler.py:303-316 | no parsed value ever contains a space or SOH |
| FixMessage.ParseEncodeIff | src/protocols/fix_handler.py:303-411 | `parse` inverts `encode_str`, order included, exactly for messages whose printed values hold no space and no SOH |
| FixMessage.FIXMessage.Set | src/protocols/fix_handler.py:324-330 | an assignment changes what its tag looks up and nothing else, and keeps tags distinct |
| FixMessage.FIXMessage.Remove | src/protocols/fix_handler.py:350-352 | a deletion hides its tag and no other, and keeps tags distinct |
| FixMessage.FIXMessage.FromText | src/protocols/fix_handler.py:303-316 | the parsing loop builds exactly the parsed field list that the round trips are about |
| FixFraming.FrameEndStable | src/protocols/fix_handler.py:831-866 | a complete frame stays the same frame when more bytes arrive |
| FixFraming.DrainAppend | src/protocols/fix_handler.py:831-866 | scanning early and again later gives the frames and residue of scanning once |
| FixFraming.ChunkInvariance | src/protocols/fix_handler.py:810-866 | on arbitrary bytes, any cutting into non-empty reads gives the frames and residue of one big read |
| FixFraming.DrainedIsDry | src/protocols/fix_handler.py:831-866 | the scan leaves no complete frame behind |
| FixFraming.DrainConserves | src/protocols/fix_handler.py:847-866 | frames followed by the residue are the buffer: no byte is lost or reordered |
| FixFraming.ReadableIff | src/protocols/fix_handler.py:869-883 | a header of two fields has a BodyLength exactly when the first of them that begins with 9= has an integer behind it |
| FixFraming.StuckIff | src/protocols/fix_handler.py:839-841 | once two SOH bytes are there, no continuation can complete a frame exactly when the header has no integer BodyLength |
| FixFraming.TrailerFound | src/protocols/fix_handler.py:843-850 | the trailer is found right behind a body that does not contain its text |
| FixFraming.CutEarly | src/protocols/fix_handler.py:843-850 | a body containing the trailer text makes the frame end inside the body |
| FixFraming.FrameEndIff | src/protocols/fix_handler.py:831-851 | a message followed by anything is cut at its own end exactly when no body field contains the trailer text |
| FixFraming.LooksLikeTrailerIff | src/protocols/fix_handler.py:843-845 | the fields that contain the trailer text are those whose tag ends in 10 or whose value contains it |
| FixFraming.DrainWires | src/protocols/fix_handler.py:831-866 | concatenated printed messages are cut back into exactly those texts |
| FixFraming.StreamRoundTrip | src/protocols/fix_handler.py:303-866 | printer, framer and parser: for every list of transmittable messages and every cutting, all arrive in order with all fields and no residue |
| FixFraming.RoundTripIff | src/protocols/fix_handler.py:303-866 | one message arrives alone and unchanged exactly when it is transmittable: clean values, no trailer text in a body field |
| FixSession.StampedFields | src/protocols/fix_handler.py:739-747 | what each tag of a stamped message looks up: number, sender, target, time if absent, all else as before |
| FixSession.LogonNumbered | src/protocols/fix_handler.py:415-441 | a logon message has distinct tags and carries its sequence number |
| FixSession.LogonArrives | src/protocols/fix_handler.py:415-441 | the other side reads the logon of a clean configuration tag by tag: fixed values, ids, number, heartbeat, and the optional fields exactly when configured |
| FixSession.LookupPrinted | src/protocols/fix_handler.py:392-407 | printing keeps the value of every tag except 8, 9 and 10 |
| FixSession.TrafficArrives | src/protocols/fix_handler.py:739-866 | what a session logged as sent arrives in order under any cutting, with the numbers it was given |
| FixSession.FIXSession.Send | src/protocols/fix_handler.py:739-757 | stamps, numbers and writes; logged numbers stay strictly increasing; every failure uses its number up; encoding errors and a missing connection write nothing, a failed drain leaves the message on the wire and the counters as they were |
| FixSession.FIXSession.WriteMessage | src/protocols/fix_handler.py:389-390 | encoding and writing one numbered message, with the encoding error, the missing connection and the failed drain |
| FixSession.FIXSession.SendLogon | src/protocols/fix_handler.py:759-772 | the logon is numbered and written like any message and moves the session to LOGON_SENT only when drained |
| FixSession.FIXSession.ProcessBuffer | src/protocols/fix_handler.py:831-866 | the scan loop delivers the frames of the buffer in order and returns the residue |
| FixSession.FIXSession.ReadLoop | src/protocols/fix_handler.py:810-829 | the read loop delivers what the chunks together contain, up to the first empty read |
| SequenceTracker.ReachableInv | src/data/sync_manager.py:151-253 | in every reachable state gaps are disjoint, ascending, below the expected number and each still misses something, and every missing number lies in one |
| SequenceTracker.RecordKeepsInv | src/data/sync_manager.py:157-212 | recording any number keeps that invariant |
| SequenceTracker.UnresolvedKeeps | src/data/sync_manager.py:195-212 | resolving keeps exactly the unfilled gaps, in order and still disjoint |
| SequenceTracker.MissingExact | src/data/sync_manager.py:219-227 | the missing list is the ascending list of exactly the numbers from 1 up to the expected one that did not arrive |
| SequenceTracker.CountsExact | src/data/sync_manager.py:157-227 | received plus missing counts everything before the expected number, plus the accepted numbers below 1 |
| SequenceTracker.CountsAddUpIff | src/data/sync_manager.py:157-227 | the two counts add up to the expected number minus one exactly when no number below 1 was accepted |
| SequenceTracker.CompletionRateMeaning | src/data/sync_manager.py:235-244 | the rate lies in 0..1 and is 1 exactly when no gap is open, for numbers from 1 |
| SequenceTracker.RateBoundedIff | src/data/sync_manager.py:235-244 | in every reachable state the rate is at most 1 exactly when at most as many numbers below 1 were accepted as are missing, and 1 exactly when equally many |
| SequenceTracker.RateAboveOne | src/data/sync_manager.py:235-244 | witness: a feed numbered from 0 with nothing missing has a completion rate of 2 |
| SequenceTracker.RunSummary | src/data/sync_manager.py:157-193 | after any run the received set is the set delivered and the expected number its high-water mark |
| SequenceTracker.OrderIndependence | src/data/sync_manager.py:157-244 | two runs that delivered the same set agree on expected number, received set, missing list and rate |
| SequenceTracker.GapListsDiffer | src/data/sync_manager.py:157-217 | the gap lists themselves can differ with the order |
| SequenceTracker.WidthIsMissingIff | src/data/sync_manager.py:84-85 | the total gap width counts the missing numbers exactly when no gap is partly filled |
| SequenceTracker.OpenedIs | src/data/sync_manager.py:174-185 | the gap that a delivery reports holds exactly the numbers that it makes missing |
| SequenceTracker.CurrentIsLargest | src/data/sync_manager.py:151-172 | the current number is the largest delivered or given out since the last reset, so that the next one given out is new |
| SequenceTracker.SequenceManager.RecordReceived | src/data/sync_manager.py:157-193 | a duplicate changes nothing; a new number updates set, marks and gaps and reports the gap it opens |
| SequenceTracker.SequenceManager.ResolveGaps | src/data/sync_manager.py:195-212 | the rebuilding loop keeps exactly the unresolved gaps |
| SequenceTracker.SequenceManager.GetMissingSequences | src/data/sync_manager.py:219-227 | the nested loops return the ascending list of exactly the missing numbers |
| SequenceTracker.SequenceManager.GetCompletionRate | src/data/sync_manager.py:235-244 | the rate that the lemmas above are about |
| DataSync.ReceiveKeepsInv | src/data/sync_manager.py:369-422 | status and tracker stay in step under every packet, bad or good, new or old |
| DataSync.ChannelTracks | src/data/sync_manager.py:369-422 | over every run of packets a channel tracks exactly those with a right checksum and counts the others |
| DataSync.LastSequenceIs | src/data/sync_manager.py:399-422 | the published number is that of the last good packet that was no duplicate, or 0 |
| DataSync.StatusMeaning | src/data/sync_manager.py:399-422 | total_received is the size of the received set, SYNCED holds exactly when nothing is missing, and the missing total never understates and is exact exactly when no open gap is partly filled |
| DataSync.TotalMissingOverstates | src/data/sync_manager.py:419-420 | after 5 and then 2 the published total is 4 while 3 are missing |
| DataSync.DataSyncManager.RegisterSymbol | src/data/sync_manager.py:299-317 | a new symbol gets a fresh channel, a known one keeps its own |
| DataSync.DataSyncManager.ReceivePacket | src/data/sync_manager.py:369-444 | one packet changes its own symbol's channel and the totals, and no other symbol; a new symbol gets a tracker of its own |
| DataSync.DataSyncManager.ReceiveRegistered | src/data/sync_manager.py:377-444 | the same for a registered symbol, with the reported gap |
| DataSync.DataSyncManager.ResetSymbol | src/data/sync_manager.py:511-528 | one symbol starts over and the others are untouched |
| CircuitBreaker.OpeningsApart | src/utils/error_handler.py:179-277 | any two openings without a manual reset between them are at least a cooldown apart, in every run with a nondecreasing clock |
| CircuitBreaker.CloseOpeningsNeedReset | src/utils/error_handler.py:247-297 | two openings closer than a cooldown have a reset between them |
| CircuitBreaker.TripsBounded | src/utils/error_handler.py:247-255 | (trips - 1) times the cooldown is at most the elapsed time |
| CircuitBreaker.NoCallDuringCooldown | src/utils/error_handler.py:179-243 | no caller is let through and no protected call starts inside a cooldown window, short of a manual reset after the opening |
| CircuitBreaker.ResetVoidsSeparation | src/utils/error_handler.py:294-297 | after a manual reset the breaker can open again at the same time |
| CircuitBreaker.ClosingNeedsSuccesses | src/utils/error_handler.py:189-270 | CLOSED is regained only after exactly the configured successes with no failure since HALF_OPEN was entered |
| CircuitBreaker.ProbesDecide | src/utils/error_handler.py:189-270 | HALF_OPEN is left at once by a failure or trip, and by the success that completes the configured number, and by nothing else but a reset |
| CircuitBreaker.CooldownDecides | src/utils/error_handler.py:179-280 | OPEN is left exactly by a question or a call a cooldown or more after the opening, or by a reset |
| CircuitBreaker.FailuresSince | src/utils/error_handler.py:189-213 | while CLOSED the failure count is the number of failures since the last success, reset or closing, and short of the threshold |
| CircuitBreaker.FailuresOpenIff | src/utils/error_handler.py:189-213 | short of a trip, CLOSED is left exactly on the failure that completes the threshold, at least one, with no success or reset among these failures |
| CircuitBreaker.StatsAre | src/utils/error_handler.py:126-297 | in every run the statistics are those of the history: failures counted, successes only while probing, time of the last opening unless CLOSED, openings since the last reset |
| CircuitBreaker.InflightIs | src/utils/error_handler.py:230-243 | the calls in flight are never negative and are probes started minus probes ended over the window where that is largest |
| CircuitBreaker.Breaker.AskActive | src/utils/error_handler.py:179-187 | asking says whether the breaker blocks and turns it HALF_OPEN once the cooldown has passed |
| CircuitBreaker.Breaker.RecordSuccess | src/utils/error_handler.py:189-200 | the state after a success: the failures start over, and a probing breaker counts it and may close |
| CircuitBreaker.Breaker.RecordFailure | src/utils/error_handler.py:202-213 | the state after a failure |
| CircuitBreaker.Breaker.BeginCall | src/utils/error_handler.py:227-231 | a protected call starts exactly when the breaker does not block |
| CircuitBreaker.Breaker.EndCall | src/utils/error_handler.py:233-243 | the end of a protected call is recorded, interleaved with other calls in any way |
| CircuitBreaker.Breaker.TransitionToOpen | src/utils/error_handler.py:247-255 | opening stamps the time and counts the trip, once |
| Retry.RetryAsync | src/utils/error_handler.py:397-434 | the loop over a breaker yields the result, call count, sleep and breaker state of the recursive trace |
| Retry.WithoutBreaker | src/utils/error_handler.py:400-434 | without a breaker the calls are one more than the leading retryable failures, up to max_attempts, and the result tells which case it was |
| Retry.RetryMeetsBreaker | src/utils/error_handler.py:202-434 | from CLOSED with f failures an always transient call runs min(max_attempts, failure_threshold - f) times exactly when attempts run out first or the pause after the opening is shorter than the cooldown; the result says which |
| Retry.AfterOpening | src/utils/error_handler.py:227-228 | right after an opening the next attempt is rejected uncalled exactly when the pause is shorter than the cooldown |
| Retry.PauseBounds | src/utils/error_handler.py:76-81 | a delay is half to one and a half times the capped geometric delay, exactly it without jitter |
| Retry.DelayIs | src/utils/error_handler.py:76-81 | the delay after the first attempt is the base delay and after each further one the factor times the one before, up to the cap, with jitter of up to half of it |
| Retry.ClockAddsUp | src/utils/error_handler.py:397-434 | no time passes in the loop but in calls and in pauses |
| Retry.BackoffBounded | src/utils/error_handler.py:76-434 | total sleep is at most 1.5 times the sum of capped delays, at least half of it when attempts are exhausted |
| LiveEngine.CountsBounded | src/trading/live_engine.py:558-599 | with at most c submissions overlapping at the await, daily trades and pending orders exceed their limits by at most c - 1 over every run |
| LiveEngine.VolumeBounded | src/trading/live_engine.py:574-599 | daily volume stays within c times its limit, so within the limit when submissions are atomic |
| LiveEngine.CountersCountAccepted | src/trading/live_engine.py:574-599 | in every run the daily count and volume are the number and the value, quantity times limit price or just quantity without one, of the submissions accepted since the last change of day |
| LiveEngine.PendingIff | src/trading/live_engine.py:594-739 | in every run the pending orders are exactly those accepted and neither filled nor cancelled since |
| LiveEngine.PassesIff | src/trading/live_engine.py:558-589 | an order passes exactly when the engine runs, is past warmup and healthy enough, no cooldown is on, what was accepted this day leaves room for it in count and value, there is room among pending orders, and a live engine finds it within risk |
| LiveEngine.FirstReasonDecides | src/trading/live_engine.py:558-589 | an order is refused for the first reason that applies, in the order of the checks |
| LiveEngine.NothingBeforeStart | src/trading/live_engine.py:558-559 | an engine that has not been started lets nothing through |
| LiveEngine.OverlapReachesBound | src/trading/live_engine.py:591-599 | for every trade limit of at least one and every c there is a run that reaches the bound on trades |
| LiveEngine.BreakerFollows | src/trading/live_engine.py:564-727 | the engine uses its breaker only through asking, failing and tripping, so every breaker theorem applies to it |
| LiveEngine.DrawdownHaltsTrading | src/trading/live_engine.py:558-727 | after a tick whose drawdown opens the breaker no order passes the admission checks until the cooldown has passed, short of a manual reset meanwhile |
| LiveEngine.HaltAcceptsOnlyWaiting | src/trading/live_engine.py:558-727 | inside that cooldown at most the submissions waiting at the tick are accepted, none when none waits, and daily trades plus waiting submissions do not grow |
| LiveEngine.WaitingAcceptedInHalt | src/trading/live_engine.py:591-599 | witness: a submission waiting at the tick is accepted while the breaker is active |
| LiveEngine.PeakIsRunningMaximum | src/trading/live_engine.py:707-709 | the peak is the largest portfolio value seen while running, or 0 |
| LiveEngine.TickIs | src/trading/live_engine.py:703-727 | a tick while running records the loss from the peak as a share of it and opens the breaker exactly when that is at least the limit; without a positive peak, or stopped, it does neither |
| LiveEngine.PauseRefusesNothing | src/trading/live_engine.py:422-425 | in every run, after a pause and until the mode is set again, an order passes exactly when nothing but mode and risk would refuse it |
| LiveEngine.StandbyAdmits | src/trading/live_engine.py:422-599 | for every order within the limits there is a run in which a paused engine takes it despite a failed risk check, and trades |
| LiveEngine.ResumeRestores | src/trading/live_engine.py:422-437 | in every run, resuming brings a paused engine back to live, and the risk check with it |
| LiveEngine.Gate.PauseTrading | src/trading/live_engine.py:422-425 | pausing moves a running live engine to standby, as the runs above have it |
| LiveEngine.Gate.Check | src/trading/live_engine.py:558-589 | the admission checks in order, the breaker question being their only effect |
| LiveEngine.Gate.Answered | src/trading/live_engine.py:591-637 | counters and pending orders after the awaited answer; an exception counts as a breaker failure |
| LiveEngine.Gate.ProcessTick | src/trading/live_engine.py:703-727 | peak, drawdown and trip after a tick |
| StreamCache.InsertKeepsIndexIff | src/data/stream_cache.py:219-224 | storing keeps the symbol index equal to the grouping of cached keys exactly when the key is not that of another symbol's entry |
| StreamCache.DedupGuardsIndex | src/data/stream_cache.py:133-224 | over every history with duplicate suppression in which equal keys have equal hashes and no hash is forgotten, the index stays correct, whatever symbols share a ticker |
| StreamCache.CollisionUnguarded | src/data/stream_cache.py:133-224 | witness: without suppression a fresh cache that stores two symbols under one key has a wrong index |
| StreamCache.CollisionGuarded | src/data/stream_cache.py:133-211 | with suppression the second of them is refused and the index is right |
| StreamCache.SmallestIsLeastRecent | src/data/stream_cache.py:37-49 | the entry with the smallest access number is one no more recently touched than any other |
| StreamCache.VictimIs | src/data/stream_cache.py:173-196 | FIFO evicts an entry stored first, TTL an expired one or else one looked at first, COUNT the key inserted first |
| StreamCache.VictimIsEarliest | src/data/stream_cache.py:173-196 | among entries that a policy cannot tell apart the one inserted first goes |
| StreamCache.RemoveIs | src/data/stream_cache.py:198-204 | eviction leaves every other entry and group, and the symbol keeps its group exactly while it has another entry |
| StreamCache.WindowIs | src/data/stream_cache.py:156-167 | whatever hashes came, the remembered ones are the last ten thousand new ones, each once |
| StreamCache.SortedByTime | src/data/stream_cache.py:260-261 | the sort orders by time, keeps all elements and keeps the order of equal times |
| StreamCache.Cache.IsDuplicate | src/data/stream_cache.py:156-167 | a hash among the remembered ones is a duplicate; a new one is remembered within the window |
| StreamCache.Cache.FindMinimal | src/data/stream_cache.py:178-194 | the first minimal key under the policy's comparison |
| StreamCache.Cache.FindExpired | src/data/stream_cache.py:184-192 | the first expired key in insertion order, or none |
| StreamCache.Cache.EvictEntry | src/data/stream_cache.py:173-204 | removes exactly the policy's victim from map and index; under LRU no other entry was touched longer ago |
| StreamCache.Cache.Put | src/data/stream_cache.py:206-228 | a duplicate changes nothing; otherwise the hash is remembered, a full cache evicts, size stays within max_size, the entry is stored, and the index stays right exactly when the key is free or of the same symbol |
| StreamCache.Cache.Get | src/data/stream_cache.py:230-266 | the result is the time-sorted list of what a full scan by symbol, TTL and since finds, each once, and exactly these entries are touched |
| StreamCache.Cache.GetLatest | src/data/stream_cache.py:268-299 | the result is a newest fresh entry of the symbol, none only if there is none, and only it is touched |
| StreamCache.StoredIsFound | src/data/stream_cache.py:206-266 | what was stored is found by `get` exactly until its time to live has passed, by look-ups that reach back far enough |
| StreamCache.StoredBoundsLatest | src/data/stream_cache.py:206-299 | and until then `get_latest` returns something at least as recent |
| StreamCache.Cache.ClearSymbol | src/data/stream_cache.py:310-326 | removes exactly the symbol's entries and its group and counts them |
| StreamCache.Cache.CleanupExpired | src/data/stream_cache.py:485-508 | removes exactly the expired entries, keeps the index right and counts them |
| BackpressureQueue.RunSound | src/data/stream_cache.py:347-440 | over every run the counter is the queue length and at most its maximum, offered = consumed + dropped + queued, and consumed followed by queued is an in-order subsequence of offered |
| BackpressureQueue.RunPressed | src/data/stream_cache.py:373-405 | with a positive low watermark, throttling in any run implies a queue that is not empty, and for low at most 0.76 and high one of at least low times the maximum |
| BackpressureQueue.DrainReleases | src/data/stream_cache.py:373-382 | draining a paused queue releases the producers, at the latest when it is empty |
| BackpressureQueue.NeverStuckIff | src/data/stream_cache.py:347-393 | no run whose producers wait at the pause gate ends paused and empty, exactly when the low watermark is positive or no reachable fill level starts throttling |
| BackpressureQueue.HighIsReachable | src/data/stream_cache.py:384-393 | a high watermark up to 0.95 is always such a reachable level |
| BackpressureQueue.FullReachableIff | src/data/stream_cache.py:355-440 | some run lets an offer through the pause gate to a full queue exactly when the capacity is below 5 |
| BackpressureQueue.PutSize | src/data/stream_cache.py:384-440 | a put leaves all entries, or a fifth less from 95 percent on, and throttles from the high watermark on |
| BackpressureQueue.StreamQueue.PutNow | src/data/stream_cache.py:357-371 | the put behind duplicate check and pause gate, including the full queue |
| BackpressureQueue.StreamQueue.CheckBackpressure | src/data/stream_cache.py:384-393 | throttling and dropping after a put |
| BackpressureQueue.StreamQueue.DropEntries | src/data/stream_cache.py:428-438 | the loop drops a fifth, oldest first, and counts it |
| BackpressureQueue.StreamQueue.HandleQueueFull | src/data/stream_cache.py:407-426 | the drop policies on a full queue |
| BackpressureQueue.StreamQueue.GetNow | src/data/stream_cache.py:373-382 | a get returns the oldest entry and resumes below the low watermark |
| Accounting.AddKeepsLedger | src/trading/models.py:215-228 | opening or adding with a weighted average keeps realized profit, cost and net quantity in balance |
| Accounting.ReduceKeepsLedger | src/trading/models.py:230-247 | closing no more than is open keeps that balance and removes an emptied position |
| Accounting.OverCloseUnbalances | src/trading/position_manager.py:65-95 | closing more than is open breaks the balance at every mark price but the entry price |
| Accounting.PositionIsNet | src/trading/position_manager.py:43-103 | after any fills without over-close a position exists exactly for a non-zero net, with its sign as side and its size as quantity |
| Accounting.BalancedIff | src/trading/position_manager.py:43-113 | realized plus unrealized profit equals sells minus buys plus net times mark, after every prefix, for every symbol and mark, exactly when no fill closes more than is open |
| Accounting.TradesAre | src/trading/position_manager.py:43-113 | in every run the trades are the closing fills, each once and in order, recorded at their own quantity, price, time and costs against average price and opening time of the position they close |
| Accounting.PositionLife | src/trading/position_manager.py:43-103 | in every run an open position has side and time of the fill that opened it, counts the fills since, and has booked exactly the gains of the trades since |
| Accounting.ReduceIs | src/trading/models.py:230-247 | a reduction takes off no more than there is and books the profit on what it took off, none against an average of zero |
| Accounting.FailsIff | src/trading/position_manager.py:43-103 | a fill fails, and then changes nothing, exactly when it would bring an entry to a quantity of zero by adding; every other fill changes the books |
| Positions.Position.Add | src/trading/models.py:215-228 | the position after an opening or adding fill |
| Positions.Position.ReduceBy | src/trading/models.py:230-247 | the position after a clamped reduction |
| Positions.Position.UnrealizedPnl | src/trading/models.py:197-206 | the open profit of the ledger at the current price, 0 without one |
| Positions.PositionManager.ProcessFill | src/trading/position_manager.py:43-103 | books one fill on the objects exactly as on the ledger's book, with the trade it records and the division failure |
| Positions.PositionManager.Grow | src/trading/position_manager.py:96-98 | an opening or adding fill changes its own position and no trade |
| Positions.PositionManager.Close | src/trading/position_manager.py:63-95 | the trade record of a reducing fill and the shrunk or removed position |
| Positions.PositionManager.GetRealizedPnl | src/trading/position_manager.py:126-128 | the sum of all trades' profits after their costs |
| Positions.NetSumIs | src/trading/position_manager.py:126-128 | that sum adds up what each trade realized less its commission and slippage |
| Simulation.MatchRespectsPrices | src/trading/execution_engine.py:162-229 | before costs, a limit order matches exactly when the quote is within its limit and a stop order exactly when its level is reached, at the quote |
| Simulation.FillsExactlyWhenMet | src/trading/execution_engine.py:162-247 | a market order always fills at the middle of the quotes, a limit or stop order exactly when the quote meets it, at the quote, a stop-limit order never; the fill takes all that remains, with slippage against the trader and the costs of that price |
| Simulation.TickDecides | src/trading/execution_engine.py:138-247 | in every run a tick FILLS each pending order of its symbol that meets it, market orders always, with nothing remaining and that average price, and leaves every other order as it was |
| Simulation.TickFills | src/trading/execution_engine.py:150-247 | in every run a tick adds to the fills those of the orders that meet it, in the order of the visits and with their costs, and no others |
| Simulation.TickPrices | src/trading/execution_engine.py:138-148 | a tick gives the position of its symbol the middle price before matching and touches no other position |
| Simulation.SubmitsAndCancelsDecide | src/trading/execution_engine.py:78-114 | submitting adds a PENDING order, cancelling ends an order exactly while it is pending; neither touches another order or trades |
| Simulation.LimitKeptIff | src/trading/execution_engine.py:177-247 | a matched limit order keeps to its limit exactly when the slippage charged at the quote is at most the room between quote and limit |
| Simulation.LimitsAlwaysKeptIff | src/trading/execution_engine.py:177-247 | limits are kept for all new orders and all ticks exactly when the slippage model charges nothing on any positive quantity |
| Simulation.BeyondLimitReached | src/trading/execution_engine.py:150-247 | any positive slippage has a run that leaves a limit order FILLED beyond its limit |
| Simulation.StopLimitNeverFills | src/trading/execution_engine.py:162-229 | over every run a stop-limit order stays pending and unfilled until it is cancelled |
| Simulation.ReachableValid | src/trading/execution_engine.py:78-175 | in every reachable state the active ids are those of active orders, filled + remaining = quantity, average price times filled is the value of the order's fills, and the books are those of all fills |
| Simulation.DoneIsForever | src/trading/models.py:91-136 | FILLED and CANCELLED orders never change again |
| Simulation.VisitOrderIrrelevant | src/trading/execution_engine.py:150-160 | visiting the pending orders in any order gives the same orders and active set |
| Simulation.VisitAllSettles | src/trading/execution_engine.py:150-160 | each visited order is settled on its own and every other order is untouched |
| Simulation.NetPosition | src/trading/execution_engine.py:249-252 | without over-close each position is the signed sum of the filled quantities of its symbol's orders, and the books balance at every mark |
| Execution.LiveOrder.Update | src/trading/models.py:111-129 | the order after a fill: weighted average, filled, remaining, status, or the error in the average, which changes nothing |
| Execution.LiveOrder.Cancel | src/trading/models.py:131-136 | only an active order becomes cancelled |
| OrderDesk.FillsAddUp | src/trading/order_manager.py:59-70 | over every run of partial and whole fills, filled + remaining = quantity, average price times filled is the value of the order's fills, and it is FILLED exactly when nothing remains |
| OrderDesk.ActiveExactIff | src/trading/order_manager.py:26-107 | the active ids are those of the active orders all along exactly when no fill partly fills a cancelled order |
| OrderDesk.CancelledRevived | src/trading/order_manager.py:59-107 | witness: registering, cancelling and a part fill end with an active order outside the active ids |
| OrderDesk.ListsAreExact | src/trading/order_manager.py:26-48 | the list of a symbol holds, once each and in order of registration, exactly the ids of its orders |
| OrderDesk.BookedAccounts | src/trading/models.py:111-129 | one fill of any positive size keeps an order in line with its fills |
| Execution.OrderManager.Register | src/trading/order_manager.py:26-30 | registering on the object is registering in the model, per-symbol list included |
| Execution.OrderManager.GetOrdersBySymbol | src/trading/order_manager.py:45-48 | the orders of a symbol's list, in its order |
| Execution.OrderManager.ProcessFill | src/trading/order_manager.py:59-70 | a fill on the object is a fill in the model: a known order books it and is retired when done, an unknown id or an error in the average changes nothing |
| Execution.OrderManager.CancelOrder | src/trading/order_manager.py:84-107 | cancelling is refused for unknown and finished orders, and otherwise as in the model |
| Execution.OrderManager.CancelAll | src/trading/order_manager.py:109-118 | cancels exactly the active orders, of one symbol or of all, and counts them |
| Execution.CancelAllIs | src/trading/order_manager.py:109-118 | order by order: an active one of the symbol, or any without one, becomes CANCELLED and leaves the active ids, and every other stays |
| Execution.ExecutionEngine.SubmitOrder | src/trading/execution_engine.py:78-102 | without a broker the order is registered and PENDING, on the objects as in the model |
| Execution.ExecutionEngine.CancelOrder | src/trading/execution_engine.py:104-114 | cancelling on the objects is cancelling in the model |
| Execution.ExecutionEngine.ProcessTick | src/trading/execution_engine.py:138-148 | a tick on the objects is a legal tick of the model, for tick after tick, so all its theorems apply |
| Execution.ExecutionEngine.Reprice | src/trading/execution_engine.py:143-144 | the symbol's position takes the mid price before matching |
| Execution.ExecutionEngine.ProcessPending | src/trading/execution_engine.py:150-160 | the matching loop visits exactly the pending orders of the symbol |
| Execution.ExecutionEngine.VisitOne | src/trading/execution_engine.py:157-160 | one order is matched, costed, booked on order and position |
| Backtest.LoadedIs | src/backtesting/engine.py:83-99 | loading keeps exactly the bars of the date range, with their multiplicity, sorted by time, bars of one time in their order |
| Backtest.NoLookAhead | src/backtesting/engine.py:182-190 | however often a symbol is listed, no bar is emitted before the clock has reached its time |
| Backtest.WalkCounts | src/backtesting/engine.py:182-190 | after time t the index is the number of bars at or before t, when no time is shared by more bars than the symbol is listed |
| Backtest.OfReplay | src/backtesting/engine.py:182-198 | for every configuration, and from any feed with nothing emitted and all indices at 0, the events of a symbol are its bars up to its index, in order |
| Backtest.WholeSeriesIff | src/backtesting/engine.py:184-190 | every bar of a series is emitted exactly when no time is shared by more bars than the symbol is listed: listed once, when times strictly increase |
| Backtest.ReplayCompleteIff | src/backtesting/engine.py:151-203 | for every configuration the replay emits every loaded bar exactly once exactly when that holds of each series |
| Backtest.ReplayInOrder | src/backtesting/engine.py:151-198 | from such a feed events are ordered by time; when no symbol is listed twice, strictly by time and then configured symbol |
| Backtest.SpentReplay | src/backtesting/engine.py:182-198 | once every configured index is at its end, a replay emits nothing and changes nothing |
| Backtest.CompleteIsSpent | src/backtesting/engine.py:182-198 | a complete replay leaves every configured index at its end |
| Backtest.Engine.LoadHistoricalData | src/backtesting/engine.py:83-99 | stores the loaded series, sorted, resets its index, and keeps a fresh engine fresh |
| Backtest.Engine.GetAllTimestamps | src/backtesting/engine.py:172-180 | the strictly ascending list of exactly the times of all loaded bars |
| Backtest.Engine.ProcessTimestamp | src/backtesting/engine.py:182-198 | one pass visits the configured symbols in order, from any indices, as in the model |
| Backtest.Engine.Run | src/backtesting/engine.py:140-156 | the simulation loop is the replay of the model from whatever indices there are; on a fresh engine it is in order and complete exactly for sparse series, on spent indices it does nothing |
| PositionSync.PassOutcome | src/portfolio/position_sync.py:211-229 | a pass corrects every symbol on its own, in whatever order, and counts differences minus those missing locally |
| PositionSync.MismatchesAre | src/portfolio/position_sync.py:310-374 | what is reported of a common symbol: other sides, quantities more than the tolerance apart either way, prices more than the tolerated share apart either way, how severe each is, in this order, and nothing exactly when all agree |
| PositionSync.CountsMeans | src/portfolio/position_sync.py:400-466 | a difference that does not count changes nothing, one that counts leaves the broker's value in its field, or no entry |
| PositionSync.PassIsSynced | src/portfolio/position_sync.py:199-229 | the result of a pass does not depend on the order of the symbols |
| PositionSync.OnePassConverges | src/portfolio/position_sync.py:199-466 | afterwards every common symbol has the broker's side and agrees on quantity and price within the tolerances, what agreed before being kept; symbols absent at the broker are gone, and a second pass finds only MISSING_LOCALLY and changes nothing |
| PositionSync.ConvergesIff | src/portfolio/position_sync.py:271-376 | correcting brings every pair of positions within the tolerances exactly when no tolerance is negative |
| PositionSync.CallerViewSettles | src/portfolio/position_sync.py:199-229 | a second reconciling pass over the caller's objects changes none of them |
| PositionSync.StaleStaysReported | src/portfolio/position_sync.py:203-229 | after any number of reconciling passes over the caller's objects the next one reports exactly the symbols missing on one side |
| PositionSync.PositionSynchronizer.ReconcileSingle | src/portfolio/position_sync.py:400-466 | one difference changes one object or drops one key, and says whether it took effect |
| PositionSync.PositionSynchronizer.ReconcileDifferences | src/portfolio/position_sync.py:382-398 | the differences applied in order, and how many took effect; an object that is only reported stale keeps its value |
| PositionSync.PositionSynchronizer.ReconcilePass | src/portfolio/position_sync.py:225-229 | the lookup map ends synced, and the caller's objects hold the corrected values, stale ones unchanged |
| PositionSync.PositionSynchronizer.Sync | src/portfolio/position_sync.py:207-229 | compares every symbol of either side once and, if configured, leaves the synced map and the corrected objects |
| Aggregator.PeriodStartIs | src/data/feed.py:281-289 | period starts partition time and are monotone |
| Aggregator.PeriodZeroesClock | src/data/feed.py:281-289 | a period starts where the smaller fields of the clock are zero |
| Aggregator.BarSpans | src/data/feed.py:291-305 | low and high are prices of the group and enclose all of them, open and close included |
| Aggregator.StreamedKeepsTicks | src/data/feed.py:259-324 | the streamed groups, flush included, hold every tick once in order of arrival, in whatever time order |
| Aggregator.StreamIsBatchIff | src/data/feed.py:259-324 | streamed bars with the flush are the ticks grouped by period exactly when no tick is older than the period of an earlier one |
| Aggregator.BarTellsPeriod | src/data/feed.py:259-305 | for ordered ticks each bar tells of all ticks of one period: open and close are the first and last middle price, high and low the largest and smallest, volume the sum of the quoted sizes |
| Aggregator.BarTimesIncrease | src/data/feed.py:265-289 | for ordered ticks bar times strictly increase |
| Aggregator.VolumeConserved | src/data/feed.py:291-324 | the bars' volumes add up to the ticks' volumes, in any order |
| Aggregator.SymbolsIndependent | src/data/feed.py:259-279 | in a mixed stream each symbol has the bars of its own ticks |
| Aggregator.DataAggregator.AddTick | src/data/feed.py:259-279 | one tick updates its own symbol and returns the bar it completes |
| Aggregator.DataAggregator.Flush | src/data/feed.py:307-324 | returns the pending bar of one symbol or of all, each once, and empties those buffers |
| OrderRouter.EqualConserves | src/trading/order_router.py:201-207 | equal parts add up to the quantity |
| OrderRouter.EqualSplitIs | src/trading/order_router.py:201-207 | all parts of an equal split are equal |
| OrderRouter.WeightedTotal | src/trading/order_router.py:208-228 | weighted parts add up to the larger of quantity and the clamped parts before the last, for any weights |
| OrderRouter.WeightedSplitIs | src/trading/order_router.py:214-228 | every part of a weighted split but the last is in proportion to its weight, or one where that is less, and the last takes what remains, if anything |
| OrderRouter.WeightedOvershoot | src/trading/order_router.py:214-228 | with nonnegative weights nothing is lost, at most one unit per part but the last is added, none if each is due one, and no part is negative |
| OrderRouter.OvershootReached | src/trading/order_router.py:217-228 | the bound on the excess is reached for every weight list |
| OrderRouter.SmallOrderInflated | src/trading/order_router.py:217-228 | one unit over three equal weights becomes two |
| OrderRouter.ScaleIsIrrelevant | src/trading/order_router.py:214-218 | only the proportions of the weights matter |
| OrderRouter.SplitConservesIff | src/trading/order_router.py:172-230 | parts have the symbol and side and distinct ids, and carry the whole quantity exactly unless weighted parts before the last exceed it |
| OrderRouter.SplitOrder | src/trading/order_router.py:196-230 | the split by its arguments, with both errors |
| OrderRouter.SplitByWeight | src/trading/order_router.py:214-228 | the loop with its running remainder computes the weighted quantities that the theorems are about |
| OrderRouter.SplitRouteIs | src/trading/order_router.py:635-663 | when the split route fails, that it conserves the quantity otherwise, and when it names one broker per order |
| OrderRouter.VolumeRouteIs | src/trading/order_router.py:608-633 | with any history the volume route succeeds, one order per broker by share of fills, with bounded excess |
| OrderRouter.PicksAre | src/trading/order_router.py:578-586 | call j of a run picks position (index + j) mod n |
| OrderRouter.RoundRobinFair | src/trading/order_router.py:578-586 | over any number of calls no broker is picked twice more often than another, over full rounds all equally often |
| OrderRouter.Router.RouteRoundRobin | src/trading/order_router.py:578-586 | picks the next broker and moves the index so that the picks continue |
| OrderRouter.Router.RouteSplit | src/trading/order_router.py:635-663 | the split route by configuration |
| OrderRouter.Router.RouteVolumeWeighted | src/trading/order_router.py:608-633 | the volume route, equal split without history included |
| Drawdown.PeakIs | src/portfolio/metrics.py:89-91 | the running peak is the maximum so far, first held at its recorded index |
| Drawdown.DescribesUnique | src/portfolio/metrics.py:76-100 | the curve determines the reported fall and its length |
| Drawdown.PairMaximum | src/portfolio/metrics.py:76-100 | for a curve that starts above zero and goes below it only from its peak, the report is the largest loss over all pairs i <= j, with the length of a pair attaining it |
| Drawdown.Attained | src/backtesting/results.py:143-158 | for a curve starting above zero the report is the maximum of the drawdown series |
| Drawdown.FallIsPairMaximumIff | src/portfolio/metrics.py:89-93 | position by position, for values of any sign: the fall from the running peak is the largest from any earlier positive value exactly when the value is not below zero or no smaller positive value than the peak came before |
| Drawdown.BelowZeroUnderstated | src/portfolio/metrics.py:93-98 | witness: a curve that goes below zero with a deeper pair than is reported |
| Drawdown.FallScaled | src/portfolio/metrics.py:93 | scaling the curve keeps every relative fall |
| Drawdown.CalculateMaxDrawdown | src/portfolio/metrics.py:76-100 | the one pass reports the first deepest fall and its length, or fails exactly on a zero peak |
| Drawdown.GetDrawdownSeries | src/backtesting/results.py:143-158 | the series holds the fall at every position |
| Drawdown.MaxDrawdown | src/backtesting/results.py:104-112 | the property is the largest element of the drawdown series for curves that start above zero |

## Left out

- FixMessage.EncodeConformsIff: assumes a begin string without SOH, since with one the header has no single reading.
- FixSession.LogonArrives: assumes configuration values without spaces and SOH, which the parser would cut.
- LiveEngine.VolumeBounded: assumes quantities and prices that are not negative; a negative order would lower the daily volume.
- LiveEngine.PauseRefusesNothing: runs switch modes freely besides pausing and resuming; what starting and stopping the engine does to brokers is not modelled.
- Aggregator.BarTellsPeriod: assumes ordered ticks; `Aggregator.StreamIsBatchIff` says what they are needed for.
- Drawdown.PairMaximum: its condition is sufficient for the whole report; the exact condition is given position by position in `Drawdown.FallIsPairMaximumIff`.
- OrderRouter.VolumeRouteIs: assumes a quantity that is not negative.
- OrderDesk.FillsAddUp: covers orders registered once, with nothing filled, and positive fills; a second registration under one id would replace the order.
- Execution.OrderManager: holds orders as values; that callers share the order object with the manager is not captured. `Execution.LiveOrder` models the object alone.
- Execution.ExecutionEngine.SubmitOrder: takes new orders with a fresh id, a positive quantity and the price their kind is compared with; without that price the original fails with a type error at the first tick.
- StreamCache.Cache: takes the cache key and the duplicate hash as fields of the datum; how the texts are computed, and that the hash of a bar reads fields bars do not have, is left out.
- BackpressureQueue.StreamQueue: producers waiting at the pause gate and the duplicate check in front of the queue are not part of it; the check itself is `StreamCache.Cache.IsDuplicate`.
- PositionSync.PositionSynchronizer.Sync: starts from the two lookup maps; building them from lists, where the last position of a symbol wins, is left out, as are history and callbacks.
- SequenceTracker.SequenceManager: the recent-sequence window and the validity window are not modelled; neither affects gaps.
- Retry.RetryAsync: an exception is either retryable or permanent; the table that classifies exceptions is left out, and sleeping takes exactly the delay.
- Aggregator.DataAggregator: ticks only; a buffer always has a last time, so the clock reading for one without is left out.
- FIX field names for tags, typed getters, repeating groups, the limit on digits of an integer, and digits outside ASCII.
- What happens to a delivered FIX message: dispatch tasks, admin messages, heartbeats, connecting and disconnecting; inbound sequence numbers, which the code never checks.
- The encoding error of `encode_str` itself for a body outside ASCII: it is reported by encoding to bytes instead.
- Rounding of `Decimal` and `float` values.
- Packet hashing, retransmission buffers, latency averages, sync reports and background loops.
- The half-open probe counter's limit, which the code never enforces, and breaker callbacks.
- Risk checks behind the admission checks (their outcome is a parameter), order synchronisation, reconnecting and health monitoring of the live engine.
- The cleanup loop that trims remembered hashes, cache statistics, and the per-symbol cache wrapper.
- Commission and slippage formulas (parameters), broker mode, event emission and callbacks.
- Exposure, totals over all positions and the other getters of the position manager.
- Strategies, portfolio snapshots, repricing of positions and result generation of the backtest.
- Cost, latency, fill-rate and fixed routing, routing rules, broker metrics and batches.
- Sharpe ratio, value at risk, beta, alpha and the other floating-point statistics.
- Network clients, storage, configuration, plugins, command line, dashboard, the Go monitor and the Rust module.
