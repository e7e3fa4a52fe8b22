# bota, verified

bota is a deterministic Dota simulator. This project models its rules crate and its client crate in
Dafny and proves what their documentation and tests promise: over every catalogue, every point and
angle, every run of messages and every interleaving of threads.

What a file changes step by step is a class or a method with loops here too, proved against a
specification function; whole runs are then proved about those functions. Fixed-point numbers are
kept by their raw value, machine integers by their range (`Machine.dfy`), saturating and truncating
operations are written out. `Arithmetic.dfy` holds shared facts about products, `Items.dfy` what names
an item.

| file | models |
|---|---|
| `Recipes.dfy`, `Terrain.dfy` | the checks of an untrusted match start: recipe graph, terrain, picks |
| `Economy.dfy`, `Stacking.dfy`, `Placement.dfy` | what a purchase still takes, how stacks merge, where parts go |
| `BoxTest.dfy`, `Stepping.dfy`, `Angles.dfy` | the integer geometry of movement |
| `Chance.dfy`, `Odds.dfy` | the pseudo-random step and the joining of odds |
| `TimerJournals.dfy`, `Readiness.dfy`, `Orders.dfy` | prediction with rollback: undo log, waits, order ledger |
| `SwapRuns.dfy`, `Mutes.dfy` | runs of predicted swaps, some refused; what a reader is told of the slots |
| `Confirming.dfy` | which orders the snapshots have settled |
| `Session.dfy`, `SessionRuns.dfy`, `SessionAnswers.dfy` | one stream's state machine, its runs, what it accepts and acknowledges |
| `SessionOrders.dfy`, `SessionClocks.dfy` | the orders given on it, and what they do to waits and mutes |
| `Seat.dfy`, `SeatRuns.dfy`, `SeatAnswers.dfy` | the stream from the lobby over every connection, and what it takes |
| `Inbox.dfy`, `Redial.dfy`, `Greetings.dfy` | the reader thread's inbox, reconnecting, and what a fresh connection is told |
| `Cells.dfy`, `Sight.dfy` | the cell grid and the sight raster |

## What turned out otherwise

Where the code does not do all that is said of it, the code is modelled as it is, with an input that
shows it and the exact condition:

- A step of less than two raw units can stand still for ever (`LostStep`); from two on, and only from
  two on, every target is reached (`ArrivesFromTwo`).
- `turn_ticks` reckons with a rate of one where the rate is zero, and then no number of ticks is enough
  (`FacingAwayForEver`); it is right exactly where the rate is not zero or no turn is needed
  (`TurnTicksMeant`).
- First fit refuses lists it could place when a hero counts at both shops and has room both in the bag
  and beside it (`CrowdRefused`), and only then (`CompleteUnlessContended`).
- The ledger's rollback restores the standing order but not that orders were queued behind it
  (`QueueForgottenOnce`). It may then be left unsent as a repeat, exactly where `QueueForgotten` says,
  and be given again at a restart, exactly where `GivenAgainAfterRefusal` says; the comment on `queued`
  rules out both.
- A rejected order whose entry the journal already falls back on is not rolled back, and answers once
  all later ones are gone (`EvictedComesBack`); the journal stands for the full log exactly when that
  entry is not the rejected one (`RejectStands`).
- A swap predicted from the stack of a refused one keeps what it found there (`OverlapDisturbs`), which
  happens exactly between swaps that share a slot (`DisturbsOnlyItsSlots`).
- `Seat` is documented to take nothing but a match start after a second welcome; the code lets the old
  stream run on in between, every message doing what it would have done (`OldStreamRunsOn`).
- An order kept for the next connection is said to be safe because it never arrived. It leaves what is
  kept as soon as a greeting goes out, so it is lost if the server refuses that connection because the
  seat is still held (`HeldSeatLosesOrder`); it arrives exactly when the first greeting after it is
  welcomed before another dial and fewer than 64 orders fail in between (`OrderArrives`).

## Model

| member | source | states |
|---|---|---|
| Recipes.ValidateRecipes | crates/bota_client_core/src/match_static.rs:447-457 | For every shop within the size limit the validation passes exactly on a sound one: ids unique, every part sold, no cycle over components and alternatives, and every first-recipe tree, parts of parts counted as often as they occur, at most 64; a refusal names a fault the shop has |
| Recipes.VisitRecipes | crates/bota_client_core/src/match_static.rs:459-494 | One visit of the coloured depth-first search ends, by the uncoloured items left; it either finishes the item and all it is built from, keeping what was finished, or names a real fault |
| Recipes.FinishedSize | crates/bota_client_core/src/match_static.rs:477-493 | The stored size of a finished item is the exact number of items in its laid-out first-recipe tree |
| Recipes.LayoutExists | crates/bota_client_core/src/match_static.rs:459-494 | In a sound graph every item has a finite first-recipe tree, so the size bound speaks of something |
| Recipes.ChainFalls | crates/bota_client_core/src/match_static.rs:459-494 | Along any chain of parts the finishing order strictly falls: a search that ends without a grey hit has met no cycle |
| Recipes.GreyIsCycle | crates/bota_client_core/src/match_static.rs:464-467 | Meeting an item still being visited exhibits a cycle of the recipe graph |
| Recipes.TooLarge | crates/bota_client_core/src/match_static.rs:477-487 | The running sum passes 64 only where some laid-out tree really is larger |
| Recipes.AllFinished | crates/bota_client_core/src/match_static.rs:447-457 | Once every item is finished the shop is sound |
| Terrain.CheckTerrain | crates/bota_client_core/src/match_static.rs:351-363 | The axis, zero-run and coverage checks, with their saturating sum, pass exactly when the runs lay out one cell for each of the field and none is empty |
| Terrain.DecodeTerrain | crates/bota_client_core/src/match_static.rs:496-504 | The decoded terrain is the ground the runs stand for |
| Terrain.CellOfRun | crates/bota_client_core/src/match_static.rs:496-504 | Each cell of a run lies after all runs before it and has that run's value |
| Terrain.ValidatePicks | crates/bota_client_core/src/match_static.rs:306-316 | Picks pass exactly when every slot is a seat and no two are the same |
| Economy.Layout.PartsBeyond | crates/bota_core/src/economy.rs:235-253 | Laying one item out over the held parts, in place, is the specified spending of the pool |
| Economy.Layout.AllBeyond | crates/bota_core/src/economy.rs:235-253 | The same for a list of parts, in order |
| Economy.BeyondConserves | crates/bota_core/src/economy.rs:235-253 | Laying out only takes from what was held and only adds to what is wanted, and all it adds is sold whole |
| Economy.BeyondPays | crates/bota_core/src/economy.rs:235-253 | What is wanted and what was spent together cost what the parts cost |
| Economy.RicherStays | crates/bota_core/src/economy.rs:235-253 | Simultaneously over the whole recursion: a pool that held more still holds more after, and wants no dearer a list |
| Economy.HoldingMoreCostsNoMore | crates/bota_core/src/economy.rs:192-233 | On every acyclic catalogue with prices, adding held items never raises the cost of what the chosen recipe still takes |
| Economy.PurchaseConserves | crates/bota_core/src/economy.rs:192-253 | A purchase keeps a part of what was held, wants only items sold whole, and without charge recipes the cost of the wanted and of the spent is the price of the item |
| Economy.RecipeCosts | crates/bota_core/src/item_table.rs:134-141 | Every recipe of an item that is not by charges costs the price of the item |
| Economy.HeldPartsAreSpent | crates/bota_core/src/economy.rs:235-253 | Whoever holds every part of a recipe buys nothing and spends exactly those, once each |
| Economy.BoughtCompletes | crates/bota_core/src/economy.rs:235-253 | Once the parts asked for are in stock, laying the item out again wants nothing more, whatever else is held |
| Economy.BuyingCompletes | crates/bota_core/src/economy.rs:180-253 | After buying what a purchase asks for, the same purchase asks for nothing and leaves the same items over |
| Economy.ChooseNext | crates/bota_core/src/economy.rs:200-226 | One round of the choice keeps the best so far |
| Economy.ChosenIsBest | crates/bota_core/src/economy.rs:200-226 | The recipe chosen is the one that costs less than every other, or as little and is of the buyer's own attribute, or alike in both and earlier |
| Economy.PurchaseRequirements | crates/bota_core/src/economy.rs:192-233 | The loop answers for the one recipe chosen that way; an item without recipes is wanted itself |
| Economy.SatCostIsCost | crates/bota_core/src/economy.rs:211-213 | The saturating sum compared is the true cost, capped |
| Economy.TotalCost | crates/bota_core/src/economy.rs:211-213 | The loop over the wanted items computes that sum |
| Economy.PoolCounts | crates/bota_core/src/economy.rs:150-166 | The pool has an item exactly as often as the buyer has stacks of it neither for sale nor locked |
| Economy.ReachingMoreCostsNoMore | crates/bota_core/src/economy.rs:150-166 | Stacks of others, for sale or locked change no purchase, and reaching further stacks never makes one dearer |
| Stacking.MergeConserves | crates/bota_core/src/purchase.rs:46-68 | Where merging is allowed, the two stacks hold after it exactly the charges, or the observer and sentry wards, they held before, within the stack limit |
| Stacking.JoinsExactly | crates/bota_core/src/purchase.rs:32-68 | Two stacks join exactly when both hold something of one player's, are set and offered alike, and are one stackable below its limit, or wards that may combine within a byte |
| Stacking.FirstFit | crates/bota_core/src/purchase.rs:87-104 | The first slot whose stack takes all of the incoming one |
| Stacking.FirstEmpty | crates/bota_core/src/purchase.rs:87-104 | The first empty slot |
| Stacking.ReceivedWell | crates/bota_core/src/purchase.rs:87-104 | A stack goes beside the first stack with room for all of it, else to the first empty slot, and nowhere exactly when no slot takes it; a scroll goes to its own slot alone |
| Stacking.QueuedWell | crates/bota_core/src/purchase.rs:348-382 | A queued item does so with wards combining, changes no other slot, and is left out exactly when it is not sold or no slot takes it |
| Stacking.QueueIsBuyers | crates/bota_core/src/purchase.rs:348-382 | Every stack of the bag is the buyer's, neither offered nor locked, and of an item queued or a dispenser |
| Stacking.QueueConserves | crates/bota_core/src/purchase.rs:348-382 | For any queue the bag holds exactly the charges and items of the entries that found a slot |
| Stacking.QueueKeepsLimits | crates/bota_core/src/purchase.rs:348-382 | No stack of the bag passes its limit, and an entry is turned away only by a full bag |
| Stacking.QueuedBag | crates/bota_core/src/purchase.rs:348-382 | The loop builds that bag |
| Placement.PlaceShopPurchase | crates/bota_core/src/purchase.rs:206-247 | The loop answers first fit; an answer for parts that do not merge is a valid assignment; a full-inventory answer, when the hero does not count at both shops, means no assignment exists |
| Placement.PlacedWell | crates/bota_core/src/purchase.rs:206-272 | Berths answered are pairwise distinct, were empty, and each is in a container its part may use |
| Placement.MergedPart | crates/bota_core/src/purchase.rs:249-272 | A part that stacks goes where the first open shelf receives it, and is refused for room exactly when none does |
| Placement.RefusedFor | crates/bota_core/src/purchase.rs:213-240 | An item not on sale, and a secret part with no carrier at the secret shop, are refused for exactly that |
| Placement.RefusedMeansNone | crates/bota_core/src/purchase.rs:206-272 | A refusal of one part excludes every assignment of the whole list, unless the hero counts at both shops |
| Placement.UncontendedComplete | crates/bota_core/src/purchase.rs:249-272 | Wherever a hero at both shops has no rival container beside its bag, first fit places every list some assignment places |
| Placement.CrowdRefused | crates/bota_core/src/purchase.rs:249-272 | A list that can be placed and is refused, for a hero at both shops with room in the bag and in another container |
| Placement.CompleteUnlessContended | crates/bota_core/src/purchase.rs:206-272 | First fit is complete for unmerged parts if and only if the purchase is not contended so |
| BoxTest.SegmentHitsBox | crates/bota_core/src/movement.rs:249-271 | For an upright box the test answers true if and only if some point of the real segment lies in the closed box |
| BoxTest.SeparatingAxes | crates/bota_core/src/movement.rs:249-271 | The three axes tested are enough: they all overlap if and only if segment and box share a point |
| Stepping.Isqrt64 | crates/bota_core/src/movement.rs:7-27 | From any seed the correction loops end at the root rounded down |
| Stepping.IntermediatesFit | crates/bota_core/src/movement.rs:38-75 | For points on the map no distance or product of a step leaves 64 bits |
| Stepping.StepIsBounded | crates/bota_core/src/movement.rs:38-75 | A step stays between its ends on both axes, on the map, and is no longer than asked for by the same floored root |
| Stepping.StepIsExact | crates/bota_core/src/movement.rs:38-75 | A target no farther than the step is reached; towards any other, each axis moves its exact share of the step rounded towards zero, in the direction of the target |
| Stepping.ArrivalTicks | crates/bota_core/src/movement.rs:38-75 | With a step of three raw units or more the ticks to arrive are bounded by the distance over the step less two |
| Stepping.StepProgresses | crates/bota_core/src/movement.rs:38-75 | From a raw length of two on, every step brings the target nearer |
| Stepping.Arrival | crates/bota_core/src/movement.rs:38-75 | From a raw length of two on, finitely many steps reach the target |
| Stepping.LostStep | crates/bota_core/src/movement.rs:38-75 | A shorter step towards (3, 3) from the origin does not move at all |
| Stepping.ArrivesFromTwo | crates/bota_core/src/movement.rs:38-75 | Every target is reached from every point if and only if the step is at least two raw units long |
| Angles.AngleDelta | crates/bota_core/src/movement.rs:163-168 | The delta is a rotation of at most half a turn that leads from the one facing to the other |
| Angles.DeltaUnique | crates/bota_core/src/movement.rs:163-168 | It is the only one of that range, exactly opposite included |
| Angles.GapAfter | crates/bota_core/src/movement.rs:172-184 | Turning for so many ticks closes the gap by that many times the rate and no further, across the wrap |
| Angles.TurnTicksExact | crates/bota_core/src/movement.rs:186-206 | At any rate of at least one the gap is within tolerance after a number of ticks if and only if that number is no less than `turn_ticks` |
| Angles.NeverWithoutRate | crates/bota_core/src/movement.rs:186-206 | At rate zero the facing never changes |
| Angles.TurnTicksMeant | crates/bota_core/src/movement.rs:186-206 | The reckoning is right for every number of ticks if and only if the rate is at least one or the gap is within tolerance |
| Angles.FacingAwayForEver | crates/bota_core/src/movement.rs:186-206 | Facing away at rate zero, 32768 ticks are reckoned and none is enough |
| Angles.HeadingInverts | crates/bota_core/src/movement.rs:77-131 | The facing towards a point one heading away is that heading, for all 65536 of them |
| Angles.FacingInOctant | crates/bota_core/src/movement.rs:77-115 | In the first octant the facing is the whole part of 8192 times the slope, for every offset there is |
| Angles.FacingMirrors | crates/bota_core/src/movement.rs:77-115 | Swapping or negating the offsets mirrors the facing, which carries the first octant to all eight |
| Angles.FacingExact | crates/bota_core/src/movement.rs:77-115 | On the axes, on the diagonals and for no offset at all the facing is exact |
| Angles.HeadingFits | crates/bota_core/src/movement.rs:117-137 | From a point on the map no heading overflows |
| Chance.AttemptsBound | crates/bota_core/src/chance.rs:139-154 | The attempts counted and those still to come never exceed one for every part of probability spent, round by round |
| Chance.RoundFits | crates/bota_core/src/chance.rs:139-154 | Every product of every round fits 128 bits |
| Chance.PrdRateAtLeast | crates/bota_core/src/chance.rs:137-154 | The rate loop ends within 2^32 rounds and answers the truncated rate |
| Chance.AttemptsNear | crates/bota_core/src/chance.rs:139-154 | The truncated mean is below the exact one by no more than the truncations accumulated |
| Chance.LostBound | crates/bota_core/src/chance.rs:139-154 | Those are at most the cube of the rounds, in raw parts |
| Chance.TruncationAccepts | crates/bota_core/src/chance.rs:139-154 | Truncation never refuses a step the exact expectation accepts |
| Chance.LargerHitsSooner | crates/bota_core/src/chance.rs:107-154 | A larger step has no larger exact mean |
| Chance.ExactRateGrows | crates/bota_core/src/chance.rs:107-154 | So a step above one that satisfies the exact rate satisfies it too |
| Chance.PrdStep | crates/bota_core/src/chance.rs:107-135 | The halving answers a step that satisfies the rate while the one just below does not, no larger than any the exact rate accepts |
| Chance.StepIsLeast | crates/bota_core/src/chance.rs:115-135 | No step the exact expectation accepts lies below the answer |
| Chance.StepIsNear | crates/bota_core/src/chance.rs:115-135 | The answer misses the exact rate by no more than its truncations |
| Odds.FoldOdds | crates/bota_core/src/item.rs:869-900 | Folding the sources in carried order gives the joined odds |
| Odds.OrAllNear | crates/bota_core/src/chance.rs:91-99 | Folding k sources stays within (k - 1) / 2 parts of the exact product of what they let through |
| Odds.OrderMovesLittle | crates/bota_core/src/chance.rs:91-99 | Reordering k sources moves the result by at most k - 1 parts |
| TimerJournals.TimerJournal.Push | crates/bota_client_core/src/timer_journal.rs:29-38 | Pushing onto the fixed array appends the entry, and a full one falls back on its oldest |
| TimerJournals.TimerJournal.Reject | crates/bota_client_core/src/timer_journal.rs:40-56 | Rejecting compacts the array to the other orders' entries, and tells whether one went |
| TimerJournals.TimerJournal.MapValues | crates/bota_client_core/src/timer_journal.rs:58-67 | Mapping changes every value kept and the one fallen back on, and no sequence |
| TimerJournals.TimerJournal.CurrentEntry | crates/bota_client_core/src/timer_journal.rs:69-79 | The newest entry kept, or the one fallen back on |
| TimerJournals.PushStands | crates/bota_client_core/src/timer_journal.rs:29-38 | A push keeps the journal standing for the unbounded log, and evicts only with eight entries behind |
| TimerJournals.RejectStands | crates/bota_client_core/src/timer_journal.rs:40-56 | A rejection keeps it so if and only if the entry fallen back on is not the rejected order's |
| TimerJournals.EvictedComesBack | crates/bota_client_core/src/timer_journal.rs:29-79 | Nine orders pushed and all nine rejected, oldest first: the log is empty, and the journal answers the first |
| TimerJournals.CurrentIsLastSurvivor | crates/bota_client_core/src/timer_journal.rs:29-79 | In every run whose rejections are in that window, the current entry is the last survivor of the full log |
| TimerJournals.PushUndone | crates/bota_client_core/src/timer_journal.rs:29-56 | Rejecting a fresh push restores the current entry even where it evicted one |
| Readiness.LocalWaits.Start | crates/bota_client_core/src/readiness.rs:237-242 | Starting a wait pushes on that body's journal alone, under a new revision |
| Readiness.LocalWaits.StartMutes | crates/bota_client_core/src/readiness.rs:249-287 | A swap of two swap slots lands or merges the predicted stacks and pushes both |
| Readiness.LocalWaits.Synchronize | crates/bota_client_core/src/readiness.rs:299-316 | Confirmed slots take the snapshot's stack; predicted ones stay, unmuted at a shop |
| Readiness.LocalWaits.ClearSwapPredictions | crates/bota_client_core/src/readiness.rs:289-294 | Afterwards no swap prediction stands, whether or not one did before |
| Readiness.LocalWaits.Reject | crates/bota_client_core/src/readiness.rs:320-332 | A rejection takes the order out of every journal and tells whether any held it |
| Readiness.StartUndone | crates/bota_client_core/src/readiness.rs:239-332 | Start, then reject the same fresh order: every current reading is as before |
| Readiness.MutesUndone | crates/bota_client_core/src/readiness.rs:249-332 | The same for the mutes of a swap, merged, landed or onto its own slot |
| Readiness.ReadingsTell | crates/bota_client_core/src/readiness.rs:334-361 | So every mute and wait left reads the same |
| Readiness.RefusedOrdersLeaveNoWait | crates/bota_client_core/src/readiness.rs:239-361 | Over any run of starts and in-window rejections the wait left is that of the run without the rejected orders |
| SwapRuns.RefusedSwapsLeaveNoMute | crates/bota_client_core/src/readiness.rs:249-351 | Over any run of swaps and in-window refusals between two snapshots, every slot and every mute reads as without the refused swaps, provided no kept swap was given while its slots held a stack of a swap refused later |
| SwapRuns.DisturbsOnlyItsSlots | crates/bota_client_core/src/readiness.rs:249-332 | Refusing a swap leaves a later one as had it never been given, whatever the slots hold, if and only if the two have no slot in common |
| SwapRuns.OverlapDisturbs | crates/bota_client_core/src/readiness.rs:249-332 | For any two swaps with a slot in common, a reachable state in which the refusal does not |
| Readiness.SettledSwapsStay | crates/bota_client_core/src/readiness.rs:299-332 | Once a snapshot settles every swap, its clocks are the snapshot's and no numbered rejection reaches them |
| Readiness.WaitRunsOut | crates/bota_client_core/src/readiness.rs:95-102 | A fresh shared wait runs from the tick its order lands and is over exactly when its ticks are, for its own body alone |
| Readiness.FirstStay | crates/bota_client_core/src/readiness.rs:135-167 | A stack's first stay in the backpack, moved about there at will, leaves its mute as it was when it ends within the grace, and otherwise mutes it for the full time at least |
| Readiness.OneGrace | crates/bota_client_core/src/readiness.rs:135-167 | Over any moves there is no second grace: every later return to the inventory away from a shop mutes for the full time |
| Readiness.MutesOnlyGrow | crates/bota_client_core/src/readiness.rs:135-212 | Away from a shop no landing or merge ends a mute early, and joining a stack from the backpack mutes it as landing would |
| Readiness.PredictedMergeConserves | crates/bota_client_core/src/item_merge.rs:8-36 | A predicted merge loses no charge and no ward |
| Mutes.SynchronizedMutes | crates/bota_client_core/src/readiness.rs:299-351 | After a snapshot a slot with no swap awaited is mute as the snapshot says, one with a swap awaited as predicted, at a shop no longer |
| Mutes.PredictedReads | crates/bota_client_core/src/readiness.rs:249-316 | A slot is predicted as the newest swap awaited left it, else as the snapshot shows it, and its mute is told accordingly |
| Mutes.SwapMoves | crates/bota_client_core/src/readiness.rs:249-287 | A swap is told of at once in its two slots alone: each stack is then in the other slot, or they joined and nothing is lost |
| Mutes.TakenOutIsMute | crates/bota_client_core/src/readiness.rs:135-167 | A stack out of its grace, swapped out of the backpack away from a shop, is mute until the full time after the swap lands, or as long as it was; no other slot's mute changes |
| Mutes.LandsByPlace | crates/bota_client_core/src/readiness.rs:135-167 | Which ways between inventory, backpack and stash change a stack's mute and grace, and how; an empty slot keeps no mute |
| Mutes.ShopEndsMutes | crates/bota_client_core/src/readiness.rs:135-212 | At a shop neither a landing stack nor either half of a merge stays mute |
| Mutes.JoinedKeeps | crates/bota_client_core/src/readiness.rs:168-212 | Joined stacks keep the lock and the spent grace of either, and no grace beyond what their item brought |
| Mutes.JoinedMutes | crates/bota_client_core/src/readiness.rs:168-212 | Away from a shop what joins is mute as long as either was, or the full time when it comes out of the backpack past its grace; what is left over is not empty |
| Orders.OrderLedger.Record | crates/bota_client_core/src/orders.rs:124-155 | Recording refuses exactly a sequence not above the last, and otherwise queues, transitions or leaves the body |
| Orders.OrderLedger.Reject | crates/bota_client_core/src/orders.rs:157-160 | The early-out over the bodies undoes the first that has the order, and tells whether one had |
| Orders.OrderLedger.Clear | crates/bota_client_core/src/orders.rs:162-165 | Clearing forgets that body alone |
| Orders.RecordedByKind | crates/bota_client_core/src/orders.rs:72-155 | Which orders are held for the queue, which replace what stands, which leave nothing standing, and which leave their body alone |
| Orders.RepeatsWhenSame | crates/bota_client_core/src/orders.rs:103-120 | An order repeats exactly when giving it would leave its body with the order and the empty queue it has |
| Orders.StepKeepsInv | crates/bota_client_core/src/orders.rs:124-248 | Every step keeps stored orders standing, unqueued, their own body's and numbered up to the last, and the two rollbacks apart |
| Orders.RunKeepsInv | crates/bota_client_core/src/orders.rs:124-248 | So does every run |
| Orders.NewestUndone | crates/bota_client_core/src/orders.rs:217-248 | Whatever passes between, rejecting a body's newest transition restores exactly what stood for that same unit and leaves the other body |
| Orders.OtherRejectionsChangeNothing | crates/bota_client_core/src/orders.rs:238-248 | A rejection changes the ledger if and only if it is of some body's newest transition |
| Orders.QueueForgotten | crates/bota_client_core/src/orders.rs:232-248 | The rollback does not restore whether orders were queued: every repeat is as before if and only if none were or nothing is restored |
| Orders.GivenAgainAfterRefusal | crates/bota_client_core/src/orders.rs:175-185 | What a restart gives again is as before the refused order if and only if the standing order was that unit's own and not held back for a queue, or was held back and is not restored |
| Orders.QueueForgottenOnce | crates/bota_client_core/src/orders.rs:217-248 | A reachable ledger at which both change: a walk, an order queued behind it, and a refused walk |
| Orders.StandingAfterRefusal | crates/bota_client_core/src/orders.rs:217-248 | What stood for any unit stands again after the refusal if and only if the order was that unit's own or another body's, changed nothing, or nothing stood |
| Orders.StandingIsNewestSurvivor | crates/bota_client_core/src/orders.rs:166-173 | In every run whose refusals are in reach, what stands is the newest transition never refused of its own unit; the history begins anew when an order names another courier |
| Orders.ReconciledOnce | crates/bota_client_core/src/orders.rs:251-306 | Reconciling keeps the kind, the unit and the sequence, aims at nothing out of sight, and twice does what once does |
| Orders.ReconciledStands | crates/bota_client_core/src/orders.rs:194-206 | The asserted standing kinds hold on every reachable ledger, before and after |
| Orders.ReconciledExactly | crates/bota_client_core/src/orders.rs:251-315 | An order is dropped exactly when its body does not live or it follows a unit out of sight and unplaced, goes to the last place told of one, and otherwise stays |
| Orders.ReconcilingCommutes | crates/bota_client_core/src/orders.rs:189-248 | Undoing a refused order and reconciling with the view may be done in either order |
| Confirming.Confirmations.Bind | crates/bota_client_core/src/session/confirmations.rs:18-26 | A new connection alone forgets what was sent and settled |
| Confirming.Confirmations.Record | crates/bota_client_core/src/session/confirmations.rs:28-33 | An order joins those awaited, the oldest of a full window giving way |
| Confirming.Confirmations.Snapshot | crates/bota_client_core/src/session/confirmations.rs:35-52 | The loop settles what is specified |
| Confirming.SnapshotSettles | crates/bota_client_core/src/session/confirmations.rs:35-52 | A settlement of this connection, due and of exactly an order awaited, settles the awaited orders up to it and no other; nothing else settles anything, and nothing is unsettled |
| Confirming.NewConnectionAwaitsItsOwn | crates/bota_client_core/src/session/confirmations.rs:18-52 | A settlement of an earlier connection settles nothing of a new one, though numbers and snapshots agree |
| Session.ClientSession.CountMessage | crates/bota_client_core/src/session.rs:462-486 | Counts what chat and housekeeping leave, and starts over at a snapshot |
| Session.ClientSession.RecordSkipped | crates/bota_client_core/src/session.rs:348-352 | The assertion that event ticks rise never fails on skipped ticks that passed their check |
| Session.ClientSession.SettleStream | crates/bota_client_core/src/session.rs:498-512 | The pending tick, and the tick owed or handed out, by policy and mode |
| Session.ClientSession.IngestSnapshot | crates/bota_client_core/src/session.rs:327-380 | A snapshot is refused, or folds with its skipped ticks, body change, waits and acknowledgement |
| Session.ClientSession.IngestEvents | crates/bota_client_core/src/session.rs:383-401 | Events are refused, or complete their tick |
| Session.ClientSession.Ingest | crates/bota_client_core/src/session.rs:224-275 | Every message does what the specification of one step says |
| Session.ClientSession.Issue | crates/bota_client_core/src/session.rs:410-438 | Numbering, recording, awaiting, waits and mutes of one order, or why it is not given |
| Session.ClientSession.EndTurn | crates/bota_client_core/src/session.rs:440-444 | The tick owed is handed out once |
| Session.ClientSession.Resume | crates/bota_client_core/src/session.rs:297-317 | The stream starts over and each living standing order is given again |
| Session.ClientSession.BindConnection | crates/bota_client_core/src/session.rs:213-217 | A new connection alone awaits its own orders anew and drops the predicted swaps |
| SessionRuns.EveryRun | crates/bota_client_core/src/session.rs:224-535 | Over every run: snapshot and event ticks only rise, each snapshot tick is acknowledged at most once and newer ones last; on a seat's own stream snapshots and events alternate on equal ticks, no match ends inside a tick, and at most 4096 counted messages pass without a snapshot or restart |
| SessionRuns.EventsBetweenSnapshots | crates/bota_client_core/src/session.rs:327-401 | Between two snapshots without a restart the first one's own events came |
| SessionOrders.GivenInSequence | crates/bota_client_core/src/session.rs:410-438 | An order is numbered next or refused for want of a snapshot or of numbers; the ledger never finds it out of sequence |
| SessionOrders.NumberedInOrder | crates/bota_client_core/src/session.rs:297-438 | Over every run, restarts among it, the orders are numbered 1, 2, 3 and on, none twice and none left out; every wait, every order awaited and all that is settled are of orders so numbered |
| SessionOrders.RefusedOrderUndone | crates/bota_client_core/src/session.rs:404-438 | An order given and then refused leaves waits and mutes as they were, and what stood for a unit exactly when it is not another courier the order took the body from; its number stays used |
| SessionOrders.NewBodyForgets | crates/bota_client_core/src/session.rs:353-363 | What was ordered of a fallen or risen hero's last body is gone, and no refusal brings it back; the courier's orders stay, and with the body unchanged all do |
| SessionOrders.SnapshotTaken | crates/bota_client_core/src/session.rs:327-380 | An accepted snapshot becomes the current one, and tells a new body exactly when the one before showed another, or there was none and it shows any |
| SessionOrders.OrdersLastWithTheBody | crates/bota_client_core/src/session.rs:327-380 | From one snapshot of a run to the next, whatever is done between, what stands for the hero goes exactly when the two show different bodies |
| SessionOrders.RestartRepeatsStanding | crates/bota_client_core/src/session.rs:297-317 | A restart gives again what stands for each body with none queued behind, the hero's first and only while the hero is seen, and leaves it standing; nothing to a watcher or before a snapshot |
| SessionOrders.LivingStand | crates/bota_client_core/src/session.rs:297-317 | Of a fallen hero's orders only those for the shop and the glyph could be given again; the courier's all are |
| SessionClocks.OrderStartsWait | crates/bota_client_core/src/session.rs:410-438 | An item used at once whose wait is shared makes its own body wait from the tick the order lands; no other order changes any wait |
| SessionClocks.OrderStartsMutes | crates/bota_client_core/src/session.rs:410-438 | Only a hero's swap predicts anything of the slots, weighed against the newest snapshot and the orders settled |
| SessionClocks.BindForgets | crates/bota_client_core/src/session.rs:213-222 | A new connection awaits no order, has settled none and keeps no predicted swap; the same one changes nothing |
| SessionClocks.SnapshotSettlesOrders | crates/bota_client_core/src/session.rs:364-372 | A seat's snapshot settles what it says exactly when that is this connection's, due, and an order awaited as it was sent |
| SessionClocks.SnapshotTellsMutes | crates/bota_client_core/src/session.rs:364-372 | A slot whose swap is settled is then mute as the snapshot says; one still awaited as predicted, at a shop no longer |
| SessionClocks.OthersLeaveOrders | crates/bota_client_core/src/session.rs:224-275 | No other message, a refusal apart, touches orders, waits or what is awaited |
| SessionAnswers.AcceptsExactly | crates/bota_client_core/src/session.rs:224-535 | After every run exactly the messages that continue its trace are accepted; each tells its own, and each refusal names a fault of the message |
| SessionAnswers.EveryTickAnswered | crates/bota_client_core/src/session.rs:440-512 | Over every run no tick owed goes unanswered: each snapshot's at once, or each turn the newest since the turn before; any other stream answers none |
| Seat.Seat.IngestLobby | crates/bota_client_core/src/seat.rs:93-156 | Every lobby message does what the specification of one step says |
| Seat.Seat.IngestStarted | crates/bota_client_core/src/seat.rs:162-195 | So does every message after the start: welcomes, restarts, and what goes to the session |
| Seat.Seat.Start | crates/bota_client_core/src/seat.rs:217-234 | The match start is checked against the scenery, the welcome and the picks, then opens the session |
| Seat.Seat.RememberScenery | crates/bota_client_core/src/seat.rs:236-249 | Scenery once a connection, and the same on all |
| SeatRuns.EverySeatRun | crates/bota_client_core/src/seat.rs:85-195 | Over every run on however many connections, what the session told since the start keeps all the session's run properties; every later welcome is to the same seat and every restart uses one up |
| SeatRuns.MatchNeverChanges | crates/bota_client_core/src/seat.rs:181-191 | After the start terms and seat never change, and a match start accepted later states the same terms |
| SeatRuns.LobbyAgrees | crates/bota_client_core/src/seat.rs:217-249 | The opening budget spans all connections, and scenery told agrees with the match that starts |
| SeatRuns.OldStreamRunsOn | crates/bota_client_core/src/seat.rs:162-195 | Between a welcome and its match start any other message does what it would have done without the welcome |
| SeatAnswers.LobbyTakesExactly | crates/bota_client_core/src/seat.rs:85-249 | After every run of a lobby exactly the messages it has room and sense for are taken; each refusal names what is so; the match start taken opens the session of the seat last assigned |
| SeatAnswers.MatchTakesExactly | crates/bota_client_core/src/seat.rs:85-195 | After every run of a match a seat takes exactly welcomes to its own seat, the same start once welcomed, and what continues the session's stream |
| SeatAnswers.RestartUntilSpent | crates/bota_client_core/src/session.rs:297-317 | A restart fails only when the numbers for the orders given again run out |
| Inbox.Shared.TryReserve | crates/bota_client_core/src/socket.rs:261-275 | One look at the room reserves the bytes exactly when there is some, or nothing is held |
| Inbox.Shared.Queue | crates/bota_client_core/src/socket.rs:276-277 | A reserved message, or the last error, joins the channel while it has room |
| Inbox.Shared.TakeOne | crates/bota_client_core/src/socket.rs:411-422 | The caller takes the oldest |
| Inbox.Shared.GiveBack | crates/bota_client_core/src/socket.rs:280-285 | Releasing never takes more than is held |
| Inbox.EveryInterleaving | crates/bota_client_core/src/socket.rs:261-285 | Under every interleaving the bytes held are exactly those reserved and not yet released, and messages are handed over in the order read, none lost |
| Inbox.EveryNet | crates/bota_client_core/src/socket.rs:33-41 | From the start, with every payload within 16 MiB, the bytes held are the payloads outstanding and stay within 16 MiB, and no more than 1024 messages wait |
| Inbox.WithinBudget | crates/bota_client_core/src/socket.rs:261-275 | A single larger payload is the only excess there can be |
| Inbox.WaitEnds | crates/bota_client_core/src/socket.rs:261-275 | A waiting reader may go on once the channel is drained and all taken is released |
| Inbox.WaitsWhileFull | crates/bota_client_core/src/socket.rs:261-275 | A waiting reader may go on exactly when no payload is outstanding or its own fits the budget beside those that are |
| Inbox.NeverStuck | crates/bota_client_core/src/socket.rs:470-555 | With anything left to do, the reader or the caller can step |
| Inbox.Drains | crates/bota_client_core/src/socket.rs:470-555 | However reader and caller interleave, what was read is handed over within a fixed number of steps, and then no byte is held |
| Redial.Rejoin.Outgoing | crates/bota_client_core/src/redial.rs:112-141 | A message goes out keyed where it asks for a seat, and is kept by its kind |
| Redial.Rejoin.Unsent | crates/bota_client_core/src/redial.rs:144-151 | Orders alone are kept, the oldest of 64 giving way |
| Redial.Rejoin.Heard | crates/bota_client_core/src/redial.rs:157-172 | A welcome, a held seat and an end are told apart |
| Redial.Rejoin.Greet | crates/bota_client_core/src/redial.rs:181-200 | A greeting says what is kept in order, and gives up its orders only when it goes out |
| Redial.Rejoin.Redial | crates/bota_client_core/src/redial.rs:216-242 | The loop dials until a connection is adopted or the attempts are spent, counting on its own until the round is over |
| Redial.EveryRun | crates/bota_client_core/src/redial.rs:93-242 | Over every run of single steps of the two threads, sends landing at any moment, between two attempts and during one as well: each greeting is the latest of each kept kind ever said and the newest 64 orders failed since the last greeting went out; dials between two welcomes never exceed the attempts; none is unwanted or follows the end |
| Redial.RoundRuns | crates/bota_client_core/src/redial.rs:216-242 | The dial loop, undisturbed, is one of those runs |
| Redial.GreetedOnce | crates/bota_client_core/src/redial.rs:181-200 | A greeting that failed leaves all it would have said; one that went out takes its orders with it, though the server refuse the connection or it break before use |
| Redial.SaidByFirst | crates/bota_client_core/src/redial.rs:144-200 | A greeting says a failed order if and only if it is the first to go out since and fewer than 64 failed after it |
| Redial.OrderArrives | crates/bota_client_core/src/redial.rs:144-200 | Over every run a failed order is said on a welcomed connection if and only if the first greeting after it is welcomed before another dial and fewer than 64 orders failed in between |
| Redial.LostForGood | crates/bota_client_core/src/redial.rs:157-200 | Once another connection is dialed before that greeting is welcomed, the order never arrives, however the run goes on |
| Redial.HeldSeatLosesOrder | crates/bota_client_core/src/redial.rs:161-200 | A reachable run: an order fails, the greeting that says it is refused as the seat is held, and the welcomed one lacks it |
| Greetings.GreetingSays | crates/bota_client_core/src/redial.rs:112-200 | After every run a greeting says the last hello, catalogue, compression, pick, readiness and view said, in that order, then failed orders, and nothing else |
| Greetings.SendingTells | crates/bota_client_core/src/socket.rs:154-183 | What is sent goes out as itself but for the key of a hello that asks for a seat with none, and is kept for later only where the break can still be dialed |
| Greetings.DialedWhen | crates/bota_client_core/src/socket.rs:179-190 | A break is dialed exactly when attempts are allowed, a hello was ever said, the server has not ended it and the stream is not corrupt; a held seat ends nothing for one who asks |
| Greetings.GivesUpWhenSpent | crates/bota_client_core/src/redial.rs:216-242 | Between two attempts the next is dialed exactly while some are left since the last welcome, and the break given up exactly when none are |
| Greetings.RoundAdopts | crates/bota_client_core/src/redial.rs:216-242 | An undisturbed round is adopted exactly when an attempt left would be, and counts up to the first such or to the last |
| Cells.CellGrid.CloseCell | crates/bota_core/src/cells.rs:57-63 | Closing a cell clears its bit and no other cell's |
| Cells.Walls | crates/bota_client_core/src/sight.rs:41-44 | The walls laid are open exactly at the cells not told opaque |
| Cells.ClearedBit | crates/bota_core/src/cells.rs:44-63 | Clearing one bit of a word leaves the other 63 |
| Cells.OnMapHasCell | crates/bota_client_core/src/match_static.rs:241-247 | The positions a snapshot is checked for are exactly those in some cell of the grid |
| Cells.CenterInCell | crates/bota_core/src/cells.rs:21-43 | A cell's centre falls into that cell |
| Cells.CellHolds | crates/bota_core/src/cells.rs:21-43 | A cell holds exactly the points of its square, and its centre is the middle of that square |
| Sight.SquareCovers | crates/bota_client_core/src/sight.rs:84-92 | A cell whose centre a viewer sees lies in the square scanned about it |
| Sight.Lit | crates/bota_client_core/src/sight.rs:76-101 | The nested scan lights a cell exactly when a unit standing on the map shows its centre to the side, by its own vision or by a grant; a wrongly sized field is left as it was |
| Sight.FastIsPlain | crates/bota_client_core/src/sight.rs:76-121 | The scan lights no cell the side does not see, and with all viewers on the map every one it does |
| Sight.StrangersShowNothing | crates/bota_client_core/src/sight.rs:122-141 | Units of other sides that grant a side nothing show it nothing, however many there are |
| Sight.SnapshotSight | crates/bota_client_core/src/sight.rs:76-141 | For every snapshot a session accepts, fast and plain sight agree on every cell, and both say what the units show |

## Left out

- IngestSnapshot: the snapshot's other checks are one flag, taken after the tick checks, so which of two faults is named first is not modelled; the folds into tracks, memory, missiles and recent events, and the observer's hooks, are not part of this model.
- IngestEvents: a batch of events is its tick; the fold of the events into tracks and recent events is not part of this model.
- Issue: what the session reads off its view besides the swap slots (the item a slot holds, the ability's aim, the measured latency) comes as facts with the order.
- EveryRun: a session's stream is followed up to the message that breaks it off; what a caller does with a session after an error is not modelled.
- RefusedSwapsLeaveNoMute: no snapshot comes between the swaps and refusals of a run, and the condition is on the run; `DisturbsOnlyItsSlots` gives it for a pair of swaps before either is given.
- LocalWaits: its journals are values that change as `TimerJournal` is proved to, not objects; the revision counter is unbounded where the program counts in 64 bits and checks.
- SwapItem: a plain value, as it is copied in the program.
- StartMutes: of a predicted stack the counts, lock and swap clocks are modelled; its cooldown and a dispenser's active ward are not.
- Isqrt64: the floating-point seed is any seed in range; the correction loops are the program's.
- PurchaseConserves: the price identity is for purchases whose every nested first recipe is one of parts, as for BeyondPays.
- BeyondPays: stated for items bought by parts; recipes by charges (lotuses and Royale with Cheese) have no components to spend and no price identity.
- QueueKeepsLimits: ward dispensers have no stack limit of their own; their two ward counts are kept within a byte instead.
- FoldOdds: of the carried bonuses only the evasion fold is modelled.
- Inbox: the caller letting go of the connection while the reader waits, and the wake-ups of the condition variable, are not modelled; any order of steps is.
- Redial: how long is waited between attempts, sockets, TLS and the browser link are not part of this model; an attempt only fails, fails on its greeting, breaks after it, or is adopted.
- SeesFrom: the ground tiers, the boss pits and the sight rule along a line are arbitrary functions.
- MarkRow: the row loop of the sight scan is a method of its own.
- Chat text rules, receipts, ping, rates and progress meters: true but easy members.
- Data tables, effects, camps, creep and hero data: finite, settled by reading.
- Replay files, catalogue hashing, commands and the user interface: lean on libraries not shown or are presentation.
- The simulation server itself.
