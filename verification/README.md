# Verified models of the market maker's decision logic

This project models the decisions a prediction-market maker takes between its network calls, and proves
what they keep over whole runs: the sticky-quote machine that defends against drag attacks, the rewards
app's arb guard, penny sweep, resolver and reward share, the order tracking of LIP mode against a hostile
exchange, the cross-strike quoter, the trading calendars, the settlement gate, the kill switch, the
taker-imbalance detector and two pieces of the TruEV backtest.

Run `dafny verify dfyconfig.toml` in this directory.

## How the model is built

Where the program updates objects, dictionaries or lists in place, the model has classes, fields and loops:
each method is proved equal to a function on values, and the theorems are lemmas about that function and
about sequences of its steps. Prices are integer cents. Quantities the program holds as floats are exact
reals (theo values, times, ratios, fees before rounding); `round` is Python's half-to-even on them. Exchange
answers, fills and clocks are parameters and range over everything, except where a lemma names an
assumption. A method's ghost result records what it said to the exchange.

| file | models |
|---|---|
| Numeric.dfy | rounding and clamps |
| StickyQuote.dfy, StickyRuns.dfy, StickyMirror.dfy | engine/sticky_quote.py: one step, whole runs, the ask/bid symmetry |
| Arbitrage.dfy, PennyCycle.dfy, RewardShare.dfy | mm-setup-main/kalshi_rewards_app.py |
| OrderTracking.dfy | deploy/lip_mode.py, the order-update half of a strike step |
| Quoter.dfy | engine/quoter.py |
| WtiCalendar.dfy, CivilDates.dfy, BusinessDays.dfy, FrontMonth.dfy, GoldmanRoll.dfy | engine/event_calendar.py, engine/cbot_settle.py, engine/goldman_roll.py |
| SettlementGate.dfy | engine/settlement_gate.py |
| KillSwitch.dfy | engine/kill.py |
| TakerImbalance.dfy | engine/taker_imbalance.py |
| TruevBacktest.dfy | deploy/truev_backtest.py |

## What the proofs found

- Where the code and its own prose disagree, the code is modelled. The rewards app's README gives the arb
  condition with YES at the lower strike; the code reports YES at the higher or equal one.
  `ArbLosesEverywhere` shows the code's test is exactly the sure loss, `ReversedStrikesCanProfit` that the
  README's pair is not.
- The sticky machine's header describes a breaker on the time spent AGGRESSIVE. A pennied call returns
  before the breaker is looked at (`PenniedCallsNeverTrip`), and one fixed target can penny the machine on
  every call for ever (`OneTargetPenniesForever`); `LockReleasesExactlyWhenEarned` gives the exact condition.
  The header also omits the direct AGGRESSIVE to NORMAL edge, which `Legal` includes.
- The two sides of the sticky machine are mirror images through a run if and only if no call of it leaves a
  price of 0 or 100 cents, which one side reads as "never quoted" (`RunsMirrorExactly`). Targets of 1 to 99
  never do (`RunsMirror`); `ZeroTargetBreaksTheMirror` is an example outside that range.
- The quoter does not check its fee gate again after lowering a quote. `FeeGateSurvivesTheScan` shows it
  need not: the fee moves by no more than the price does. Its scan never closes a spread either, so the branch
  that would drop a quote there is not reached (`ScanKillsNothing`).
- An ask of the quoter can cross its own book's best bid (`RisingBidsLetAnAskCross`).
  `AsksCrossThroughLowerStrikes` says exactly when, from the books alone; best bids that do not rise with the
  strike rule it out (`NoAskCrosses`).
- A penny sweep adds no arb to the book if and only if no bid whose answer was lost conflicts with a later bid
  of the same sweep (`SweepCreatesNoArb`, `LostAnswerMakesAnArb`): the guard sees only the answers.
- Cancelling zero-reward orders can hit an earning order when book sizes are fractional
  (`FractionsCanCancelAnEarner`). It does so exactly when fractions fill the cap ahead of the order, which
  whole sizes never do (`CancelRuleFindsZeroEarners`).
- Order tracking survives a step if and only if no cancel leaves its order alive and no placement makes an
  order live whose id the program does not get (`StepTracksUnless`); either failure leaves two live orders on
  one slot (`EitherFailureLeavesTwo`).
- The settlement gate's nearest event is the tightest one except in one situation, `Masked`, which close
  releases do produce (`CloseReleasesMask`).

## Model

| member | source | states |
|---|---|---|
| StickyQuote.StickyQuoter.Compute | engine/sticky_quote.py:132-445 | a public call moves only its own (ticker, side) entry, by one `Step`, and answers that step's price, name and transitions; a bad side changes nothing |
| StickyQuote.SideState.Advance | engine/sticky_quote.py:165-445 | the in-place body computes exactly the step on the state's value |
| StickyQuote.StickyQuoter.Snapshot | engine/sticky_quote.py:93-130 | reading creates a fresh entry if there is none and otherwise changes nothing |
| StickyQuote.StickyQuoter.Reset | engine/sticky_quote.py:447-454 | reset drops exactly one ticker's entries, or all |
| StickyRuns.RunKeepsInv | engine/sticky_quote.py:60-72 | after any run a machine outside NORMAL holds an accepted price, and the fields its state reads are set |
| StickyRuns.PricesInBand | engine/sticky_quote.py:178-199 | over any run only COOLDOWN answers 0; every other answer is 1 to 99 |
| StickyRuns.LockFieldsAreHistory | engine/sticky_quote.py:226-300 | the deque, the counter, the entry time and theo, the locked price and the cooldown end are functions of the calls of the episode |
| StickyRuns.LocksExactlyWhenPennied | engine/sticky_quote.py:169-247 | from NORMAL or RELAXING the machine locks exactly when the target has moved past the price held, by however little, answers the clamped race price and logs the one transition; from NORMAL it otherwise quotes the target |
| StickyRuns.LockReleasesExactlyWhenEarned | engine/sticky_quote.py:211-441 | from AGGRESSIVE: pennied calls keep the lock; else the breaker trips exactly past the maximum duration; else the lock releases exactly when the last N unpennied calls of the episode were all at 1.0x with fairs spanning less than the range and the current one near the entry theo, to NORMAL at once or with the first step of the relaxation; else the locked price is repeated |
| StickyRuns.LockKeepsItsDistance | engine/sticky_quote.py:211-227 | the locked price is the jump inside the best of the last pennied call, held back only by the distance from that call's theo or the price band |
| StickyRuns.RelaxingCallProgresses | engine/sticky_quote.py:378-439 | every relaxing call, the entry call included and the target moving, goes strictly towards its target without passing it, and is NORMAL exactly on reaching it |
| StickyRuns.RelaxationKeepsPace | engine/sticky_quote.py:315-410 | each relaxing call, the releasing one included, moves by the nearest cent to an equal share of the gap over the calls left, at least an equal share of the gap at release and a cent, or by the whole gap if that is less |
| StickyRuns.RelaxStepCountsCalls | engine/sticky_quote.py:379-381 | the step counter is the number of consecutive relaxing calls and stays below the total |
| StickyRuns.RelaxationTerminates | engine/sticky_quote.py:378-441 | from any relaxing run, at most the total number of unpennied calls reach NORMAL, through RELAXING only, at that call's target |
| StickyRuns.NormalQuotesNatural | engine/sticky_quote.py:169-199 | every call that ends NORMAL quotes its own natural target, but for a completed relaxation to a target outside the band |
| StickyRuns.CooldownLastsExactly | engine/sticky_quote.py:178-199 | COOLDOWN answers 0 until cooldown_seconds after the tripping call, and then NORMAL at the natural target |
| StickyRuns.PenniedCallsNeverTrip | engine/sticky_quote.py:210-258 | pennied on every call the machine stays AGGRESSIVE for any number of calls at any times |
| StickyRuns.OneTargetPenniesForever | engine/sticky_quote.py:210-247 | a run of any length, at any times and best prices, every call of which is pennied |
| StickyRuns.JournalIsAPath | engine/sticky_quote.py:143-149 | the transitions of a whole run, end to end, are a legal path from NORMAL to the current state |
| StickyRuns.KeysAreIndependent | engine/sticky_quote.py:93-99 | interleaved calls, looks and resets leave each key in the state of a machine that saw only its own calls since its last reset |
| StickyMirror.RunsMirrorExactly | engine/sticky_quote.py:165-445 | a bid machine on the calls reflected in 100 cents stays in lockstep with the ask machine, same names, counters and log, reflected prices, 0 in COOLDOWN on both, if and only if no call leaves a price of 0 or 100 |
| StickyMirror.EdgesAreQuotedTargets | engine/sticky_quote.py:165-445 | such a price is always that call's own natural target, quoted as it is |
| StickyMirror.RunsMirror | engine/sticky_quote.py:165-445 | so on targets of 1 to 99 the lockstep holds for ever |
| StickyMirror.ZeroTargetBreaksTheMirror | engine/sticky_quote.py:169-176 | with a target of 100 cents on the ask side the mirror fails: the bid side misses the penny |
| Numeric.RoundIsNearestEven | engine/sticky_quote.py:219-223 | the rounding function is the one nearest integer, even on ties |
| Arbitrage.ArbLosesEverywhere | mm-setup-main/kalshi_rewards_app.py:234-252 | for prices 1 to 99 the test holds exactly when the pair costs more than it pays at every settlement value |
| Arbitrage.ReversedStrikesCanProfit | mm-setup-main/kalshi_rewards_app.py:235-237 | with the YES strike below the NO strike some settlement pays more than the pair costs |
| Arbitrage.DetectArbs | mm-setup-main/kalshi_rewards_app.py:234-262 | reports exactly the conflicting pairs of live legs of one event, each as often as it occurs, by descending sum |
| Arbitrage.PairsAreReported | mm-setup-main/kalshi_rewards_app.py:238-260 | grouping by event loses no pair of rows and invents none |
| Arbitrage.WouldCreateArb | mm-setup-main/kalshi_rewards_app.py:265-298 | true exactly when the bid conflicts with a live row or a pending bid |
| Arbitrage.ResolveArbs | mm-setup-main/kalshi_rewards_app.py:615-637 | cancels the cheaper leg of every detected pair, each key once, whatever the exchange answers |
| Arbitrage.CheaperLegIsCheaper | mm-setup-main/kalshi_rewards_app.py:615-637 | the cancelled leg's price times size, at least one, is at most the other's, and the YES leg goes on a tie |
| Arbitrage.CancellingRemovesExactly | mm-setup-main/kalshi_rewards_app.py:615-637 | whichever keys' cancels take effect, the arbs left are exactly those with no leg among them |
| Arbitrage.ResolverLeavesNoArb | mm-setup-main/kalshi_rewards_app.py:615-637 | the cancelled legs hit every detected pair, are legs of detected pairs only, and leave an arb-free book when the cancels take effect |
| PennyCycle.PennyBot.Cycle | mm-setup-main/kalshi_rewards_app.py:454-529 | the loop computes the sweep's pending bids and cooldowns |
| PennyCycle.TargetsExactly | mm-setup-main/kalshi_rewards_app.py:469-503 | a row is acted on exactly when it is unblocked with both best prices, we have no bid, are outbid or low on share, and one step above the best bid is legal and beats our own; the step is the largest within an eighth of the spread, at least a cent; it is a defence exactly when outbid or low on share |
| PennyCycle.AttemptStartsCooldown | mm-setup-main/kalshi_rewards_app.py:505-527 | a targeted row acts exactly when nothing conflicts and the cooldown of its kind is over; acting starts its key's cooldown whatever the answer |
| PennyCycle.SweepCreatesNoArb | mm-setup-main/kalshi_rewards_app.py:454-529 | whatever posts are accepted, refused, lost or raise, the book with the sweep's live bids added has exactly the snapshot's arbs if and only if no bid the program does not know of conflicts with a later one |
| PennyCycle.NoLossNoClash | mm-setup-main/kalshi_rewards_app.py:454-529 | without a lost answer there is no such clash, even when a post raises and ends the sweep |
| PennyCycle.LostAnswerMakesAnArb | mm-setup-main/kalshi_rewards_app.py:158-188 | a snapshot of two rows on which one lost answer makes an arb, and none without it |
| PennyCycle.SweepPlacesWhatItMay | mm-setup-main/kalshi_rewards_app.py:469-527 | a cooled-down targeted row the sweep reaches, whose order is accepted, is placed exactly when it conflicts with nothing in the snapshot or the sweep's known bids |
| PennyCycle.SweepOnlyImproves | mm-setup-main/kalshi_rewards_app.py:470-503 | every live bid of the sweep answers an unblocked row, joins or beats the best bid by at most an eighth of the spread or a cent, beats our own, and stays below the ask |
| PennyCycle.CooldownHolds | mm-setup-main/kalshi_rewards_app.py:512-517 | a key attempted less than both cooldowns ago gets no bid and no new attempt in the rest of any sweep |
| PennyCycle.BookStaysArbFree | mm-setup-main/kalshi_rewards_app.py:454-529 | from fresh snapshots an arb-free book is arb-free after every event of a history of sweeps, fills and cancels if and only if no sweep of it has such a clash |
| RewardShare.ExpandLevelsToContracts | mm-setup-main/kalshi_rewards_app.py:789-796 | the early-returning nested loop yields the capped expansion |
| RewardShare.ComputeRewardShare | mm-setup-main/kalshi_rewards_app.py:799-820 | weight, total, count and length are those of the level walk and of the expansion |
| RewardShare.SeenIsExpandedLength | mm-setup-main/kalshi_rewards_app.py:809-820 | the walk sees exactly as many contracts as the expansion has, at most the cap |
| RewardShare.WalkIsUnaryCredit | mm-setup-main/kalshi_rewards_app.py:807-818 | the walk credits exactly what counting our share of each single counted contract does, in number and weight |
| RewardShare.WalkedPricesAreTotalWeight | mm-setup-main/kalshi_rewards_app.py:799-820 | the prices of the contracts the walk sees add up to the total weight summed over the expansion |
| RewardShare.ShareIsAtMostOne | mm-setup-main/kalshi_rewards_app.py:799-820 | our count and weight never exceed the totals, nor the count the cap |
| RewardShare.TruncDropsTheFraction | mm-setup-main/kalshi_rewards_app.py:789-824 | sizes count as their whole contracts |
| RewardShare.SizesAdd | mm-setup-main/kalshi_rewards_app.py:803-805 | our sizes at one price add up |
| RewardShare.CancelRuleFindsZeroEarners | mm-setup-main/kalshi_rewards_app.py:640-661 | a resting order that earns nothing is always cancelled, and the rule cancels exactly those if and only if fractions of contracts do not fill the cap ahead of it, which on whole sizes they never do |
| RewardShare.FractionsCanCancelAnEarner | mm-setup-main/kalshi_rewards_app.py:823-824 | a fractional book on which the rule cancels an earning order |
| RewardShare.SelectLosers | mm-setup-main/kalshi_rewards_app.py:652-661 | the loop selects the losing orders in order |
| RewardShare.CancelledExactlyWhenUnrewarded | mm-setup-main/kalshi_rewards_app.py:640-661 | an order without a programme is always selected; a rewarded one on a descending book exactly when the share credits its price nothing or fractions fill the cap ahead of it |
| OrderTracking.LipMarketMaker.Update | deploy/lip_mode.py:1130-1227 | one side's update, amend first and cancel-and-place behind it, changes exchange and memory as `UpdateSide` says |
| OrderTracking.LipMarketMaker.CancelAndPlace | deploy/lip_mode.py:1506-1532 | the fallback cancels the remembered order, if any, and places |
| OrderTracking.LipMarketMaker.PlaceOrder | deploy/lip_mode.py:1534-1586 | a placement remembers the new id, price and size, or nothing when it fails |
| OrderTracking.StepTracksUnless | deploy/lip_mode.py:1130-1227 | a step from a tracked world ends tracked if and only if no cancel fails on a live order and no placement's answer, or the id in it, is lost, whatever the amends do |
| OrderTracking.EitherFailureLeavesTwo | deploy/lip_mode.py:1506-1586 | a lost answer, and a failed cancel, each leave two live orders on one slot at the next quote |
| OrderTracking.StepDoesWhatItDecided | deploy/lip_mode.py:1130-1227 | after a pull nothing lives on that side, after an update nothing but the target price and size |
| OrderTracking.StepLeaves | deploy/lip_mode.py:1130-1227 | exactly what a step leaves live and remembered on its slot: nothing after a pull or a refusal, the untouched order, or the quote under the amended or the new id |
| OrderTracking.RefusalIsRetried | deploy/lip_mode.py:1555-1559 | the quote after a refused placement places |
| OrderTracking.OtherSlotsAreLeftAlone | deploy/lip_mode.py:1130-1227 | a step touches no other side or ticker, on the exchange or in memory |
| OrderTracking.AtMostOneLiveOrder | deploy/lip_mode.py:1082-1227 | over any interleaving of steps and fills each side of each ticker has at most one live order, the recorded one at the recorded price |
| Quoter.ComputeQuotes | engine/quoter.py:177-450 | cancels everything under a risk breach or a pull-all gate, else emits the sheet strike by strike |
| Quoter.OwnPairExactly | engine/quoter.py:250-384 | the exact pair of one strike: the raw quotes at the gate's half-spread, nearest to the penny inside the book, leaned by the inventory, brought into the band and inside the other side, and there only if legal and above the fees |
| Quoter.RejectionSaysWhy | engine/quoter.py:264-384 | and the exact reason when there is none |
| Quoter.HalfSpreadIsKept | engine/quoter.py:272-301 | a widened half-spread within the maximum is kept on both sides of fair |
| Quoter.PairFallsWithInventory | engine/quoter.py:279-309 | more inventory in a market lowers both its quotes or leaves them |
| Quoter.SizeIsNearest | engine/quoter.py:407-409 | a quote's size is the multiplied maximum to the nearest contract, at least one |
| Quoter.MakerFeeRoundsUp | engine/quoter.py:157-174 | the maker fee is the parabola at the price times the rate, rounded up to the cent |
| Quoter.RawQuotesAreNearestToThePenny | engine/quoter.py:286-301 | on a real book each raw quote is the point between the two half-spreads nearest to a penny inside the book |
| Quoter.InventoryLeansDown | engine/quoter.py:282-309 | more inventory never raises either quote, and its sign decides the direction |
| Quoter.CappedIsLeast | engine/quoter.py:386-396 | the scan yields the least of the price and the prices placed at lower strikes, in any order of strikes |
| Quoter.CappedIsMinWithLast | engine/quoter.py:386-396 | in ascending order the quadratic scan is a minimum with the last placed pair |
| Quoter.QuotesAreRunningMinima | engine/quoter.py:386-396 | for ascending strikes every strike with a pair of its own is placed, on each side at the least of the pairs up to it |
| Quoter.ScanKillsNothing | engine/quoter.py:386-405 | in any order of strikes the scan never closes a spread or leaves the band |
| Quoter.QuotesAreMonotone | engine/quoter.py:311-448 | for ascending strikes all bids and all asks are non-increasing, every pair has 1 <= bid < ask <= 99, and no bid reaches the best ask |
| Quoter.OrdersAreThePairs | engine/quoter.py:407-448 | the orders emitted are the placed pairs, less the side the imbalance signal withdraws, all of one positive size |
| Quoter.OthersAreReported | engine/quoter.py:248-448 | every strike without a pair is reported with its reason, and a withdrawn side is cancelled where it would have been placed |
| Quoter.AsksCrossThroughLowerStrikes | engine/quoter.py:346-396 | an ask clears its own best bid exactly when every lower strike with a pair has its own ask, before the scan, above that best bid |
| Quoter.RisingBidsLetAnAskCross | engine/quoter.py:346-396 | two books, the higher strike's with the higher best bid, on which an ask crosses |
| Quoter.NoAskCrosses | engine/quoter.py:346-396 | with best bids non-increasing in strike no ask crosses |
| Quoter.FeeGateSurvivesTheScan | engine/quoter.py:157-174 | with rates between 0 and 1 every placed pair clears the fees of the prices it is placed at, after the scan has lowered it |
| WtiCalendar.WtiTradingTime | engine/event_calendar.py:62-77 | the day walk over windows returns the measure of the weekly trading set on [start, end) |
| WtiCalendar.TradingTimeIsAMeasure | engine/event_calendar.py:62-77 | trading time is additive, monotone and at most the elapsed time |
| WtiCalendar.WeekHolds115Hours | engine/event_calendar.py:41-77 | any whole week, at any offset, holds 115 trading hours |
| WtiCalendar.WeeksAdd | engine/event_calendar.py:41-77 | n more weeks add n times 115 hours to any interval |
| WtiCalendar.ClosedHours | engine/event_calendar.py:41-49 | the untraded 53 hours of a week are the halts of Monday to Thursday and the weekend from Friday 17:00 to Sunday 18:00 |
| WtiCalendar.WeekdayOfDate | engine/event_calendar.py:62-70 | the instants of a date have its weekday |
| BusinessDays.SettleDateRoll | engine/event_calendar.py:136-151 | in range, the least trading day on or after the input, for every finite holiday set; else an error |
| BusinessDays.SubtractBusinessDays | engine/cbot_settle.py:103-124 | the stepping loops, with every range check, compute `Subtract` |
| BusinessDays.SubtractSelects | engine/cbot_settle.py:112-124 | the result is r exactly when r is the trading day with n trading days after it up to the start, and an error exactly when the range holds too few |
| BusinessDays.SubtractComposes | engine/cbot_settle.py:112-124 | n days and then m are n + m days |
| BusinessDays.SubtractIsMonotone | engine/cbot_settle.py:112-124 | a later start never ends earlier, more days end strictly earlier |
| CivilDates.LastDayIsLast | engine/cbot_settle.py:131-135 | the day before the next first is this month's last day |
| FrontMonth.CycleIsSoybeans | engine/cbot_settle.py:37-53 | the contracts of a year deliver in its odd months and August, under the exchange's month letters |
| FrontMonth.RollDateByRank | engine/cbot_settle.py:142-185 | the roll date is the trading day with the offset's number of trading days between it and the first of the delivery month |
| FrontMonth.GetFrontMonth | engine/cbot_settle.py:207-244 | the candidate loop returns the first contract whose roll date is known and not reached, else an error |
| FrontMonth.FrontMonthIsNearest | engine/cbot_settle.py:207-244 | a contract is the front month exactly when it is listed and live and every contract before it has rolled or has no roll date |
| FrontMonth.FrontMonthIsMonotone | engine/cbot_settle.py:207-244 | the front contract's delivery year and month never move back as the date advances, over new years and skipped contracts too |
| FrontMonth.EarlierHistoryIsNotNeeded | engine/cbot_settle.py:232-239 | contracts skipped for dates before the table could not have been the front month: a longer table gives the same answer |
| GoldmanRoll.NthBusinessDay | engine/goldman_roll.py:22-45 | the counting loop inverts the rank of a business day in its month, and fails exactly when there are too few |
| GoldmanRoll.NthIsUnique | engine/goldman_roll.py:22-45 | at most one day of a month is its n-th business day |
| GoldmanRoll.WindowHoldsFiveTradingDays | engine/goldman_roll.py:48-54 | every roll window holds five trading days and spans at least four days, so the zero-length case never occurs |
| GoldmanRoll.DriftIsATriangle | engine/goldman_roll.py:66-88 | inside the window the drift falls on a straight line with the distance to the nearer edge, from -2 at the edges to -5 at the middle; outside it is zero |
| GoldmanRoll.RollDriftCents | engine/goldman_roll.py:66-88 | the drift of a date is that triangle over its month's fifth to ninth business day, or an error when the month has no window |
| GoldmanRoll.MaintainedMonthsHaveAWindow | engine/goldman_roll.py:48-54 | with the maintained holiday table every month has nine business days |
| GoldmanRoll.TableDates | engine/event_calendar.py:101-128 | the table's ordinals are the listed dates |
| GoldmanRoll.Weekdays2026 | engine/event_calendar.py:101-112 | the weekdays the table notes for its 2026 dates |
| GoldmanRoll.Weekdays2027 | engine/event_calendar.py:113-124 | and for its 2027 dates |
| GoldmanRoll.WeekdayNext | engine/event_calendar.py:131-133 | weekdays follow one another, so those dates fix them all |
| GoldmanRoll.HolidaysAreWeekdays | engine/event_calendar.py:93-124 | every holiday observed is a weekday |
| SettlementGate.ComputeGate | engine/settlement_gate.py:214-333 | the scan and the ladder compute the gate of the nearest relevant event |
| SettlementGate.GateAtDistance | engine/settlement_gate.py:266-333 | the size, the spread and the state at each distance from the reported event, and NORMAL exactly when none is within the windows |
| SettlementGate.NearestIsFirst | engine/settlement_gate.py:240-251 | of equally near events the first listed is reported |
| SettlementGate.NextEventIsFirst | engine/settlement_gate.py:252-264 | with none nearby the first one still to come is reported |
| SettlementGate.GateIsTightestUnlessMasked | engine/settlement_gate.py:237-333 | with ordered thresholds the gate is the tightest single-event gate if and only if no past release in its post window is masked by a nearer future one |
| SettlementGate.CloseReleasesMask | engine/settlement_gate.py:237-333 | with the default thresholds two releases 1000 seconds apart leave the gate only widened inside a post window |
| SettlementGate.SeparatedCalendarPullsExactly | engine/settlement_gate.py:237-333 | with releases more than two post windows apart the gate is the tightest, and pulls exactly on the union of [release - pull_before, release + post_window] |
| KillSwitch.ExecuteBatchCancel | engine/kill.py:254-307 | across chunks and fallback, the cancelled list is what the exchange confirmed, in order, the failed list is what single cancels were refused for, in order, and together they account for every id exactly once; batches hold 2 to 100 ids |
| KillSwitch.BatchCancelAll | engine/kill.py:80-142 | on return the cancelled ids are the confirmed ones and a permutation of the input; on KillSwitchError the failed and the confirmed ids are, and each failed id was refused in every round; the number of messages is bounded by the rounds |
| KillSwitch.WillingExchangeCancelsAll | engine/kill.py:80-142 | an exchange that refuses nothing and crashes nothing gets every order cancelled and reported |
| KillSwitch.Switch.CheckAndFire | engine/kill.py:385-461 | nothing is sent unless the switch is armed and a trigger fires; then every order is accounted for |
| TakerImbalance.TakerImbalanceDetector.CurrentSignal | engine/taker_imbalance.py:117-183 | pruning, counting and the remembered signal compute `Ask` |
| TakerImbalance.PruneIsSince | engine/taker_imbalance.py:117-121 | on trades in time order popping from the left is the window filter |
| TakerImbalance.SwappedFlowSwapsTheSide | engine/taker_imbalance.py:159-175 | exchanging buyers and sellers exchanges the side withdrawn at the same ratio, a majority of buyers withdraws the ask, and the ratio is in [0, 1] |
| TakerImbalance.SignalIsLatestBreach | engine/taker_imbalance.py:149-183 | in time order the detector answers as if it kept every trade and every query: this query's breach, else the latest earlier breach within its cooldown, else nothing |
| TakerImbalance.BreachExactly | engine/taker_imbalance.py:105-175 | a query breaches exactly when the trades off the mid in its window are enough and those above and below differ by the threshold's share of them; more above withdraws the ask |
| TakerImbalance.SignalLastsTheCooldown | engine/taker_imbalance.py:149-183 | in time order a query is answered with a signal exactly when it breaches or some query less than the cooldown ago did |
| TruevBacktest.BasketIfPriced | deploy/truev_backtest.py:334-345 | a day counts exactly when every symbol has a price and a usable anchor price |
| TruevBacktest.BasketAtAnchor | deploy/truev_backtest.py:337-341 | at the anchor prices the basket is the total weight |
| TruevBacktest.BasketMoves | deploy/truev_backtest.py:337-341 | moving one price moves the basket by that symbol's weight times the relative move |
| TruevBacktest.BestFitAnchor | deploy/truev_backtest.py:317-355 | the closed form is the unique anchor of least squared error over all reals, and is refused only when every basket value is zero |
| TruevBacktest.ForwardFill | deploy/truev_backtest.py:274-288 | every day from the first close on gets the most recent close at or before it, and no other day gets one |

## Left out

- Network clients, signing, threads, locks, sleeps, logging, files and the user interfaces.
- The float behaviour of theo values, fees, ratios and times: they are exact reals, so a tie or a threshold that only float error creates is not modelled.
- The quoting half of a LIP strike step: the model starts from its decision, a target or a pull, and from whether the resting order still qualifies.
- OrderTracking: `_cancel_all` is not modelled; `_resting` is keyed by (ticker, side) instead of nested by ticker.
- PennyCycle: scanned and placed counters and the emitted messages are not modelled; the ticker's event and strike are given with it instead of parsed.
- StickyQuote: of a transition's reason the kind is kept and the logged numbers are not.
- The parsing of order prices and sizes from strings in the reward share, and the fetching of books and programmes.
- Quoter: the survival pipeline is an input map from strike to probability, and the tick size is the default one cent.
- The static USDA calendar is a parameter; the soybean session, tau_years and the registration of handlers are one-line arithmetic.
- KillSwitch: trigger conditions are the results they would return; the two filters, by event prefix and by market ticker, only select the ids passed in.
- KillSwitch: a batch call that raises something other than the client's API error leaves the program with no report at all, and the model promises only that the conversation ended in that answer.
- is_in_roll_window, roll_info and load_reference_price_mode only combine modelled calls.
- TruevBacktest: the error is the sum of squares; the root mean square over it, the implied volatility and the fetching are not modelled.
