# Kraken SDK core: a verified model

A Dafny model of the stateful core of the Rust SDK, with proofs over every input and every run:

- **Subscription registry** (`Registry`, `RegistryLedger`, `RegistrySafety`, `RegistryBooks`, `RegistryStore`,
  `ReplayOrder`).
  The registry attributes anonymous releases to overlapping lifetimes of a key from a few scalars. An ideal
  ledger, which knows the hold behind every release and never looks at the registry, is simulated by it over
  every run that keeps the reactor's protocol. Teardown safety, conservation of holders, the wire gates, the
  mirror, isolation of dead lifetimes and soundness of the liveness epoch follow. `RegistryStore` is the
  class with nested maps, updated in place; `ReplayOrder` is the locked replay order; `RegistryBooks` drives
  the maintained book of an entry through the registry, lifetime by lifetime.
- **Maintained order book** (`PriceLadder`, `BookSide`, `BookBuilder`, `BookPrices`, `BookFeed`, `Checksum`,
  `GapRecovery`). A side
  trimmed to its best levels agrees with the untrimmed side behind it; the 32-byte strip buffer hashes the
  plainly stripped bytes; a feed of the exchange's frames is delivered with the exchange's best levels; the
  gap budget and the resync window bound recovery. `BookPrices` states what callers see in prices alone.
- **Rate accounting** (`RateCounter`, `RateTrackers`, `TradingTracker`, `RateBudget`). The decaying counter
  and its bucket bound, the exact retry instant, the LRU-capped map against one that never evicts, and the
  sliding window of connection attempts.
- **Nonces and the signed-send gate** (`NonceSource`, `RetryLoop`). Interleaved threads over a
  compare-and-swap counter and a lock, with an adversarial clock.
- **Form encoding** (`FormEncoding`). A printer inverted by a decoder, and its exact pre-sized capacity.

Code that changes state in place is a class or a method with loops, proved against a function on values;
the theorems are lemmas about those functions. Amounts and instants are exact reals, counts are unbounded.
`Util` holds `Option` and a few facts about finite sets.

Assumptions about callers are predicates of the model. `RegistryLedger.Protocol`: guard ids are fresh, a
guard register is followed at once by recording its reference, each guard is dropped once, and a hold is
given up only if it is held. `RateCounter.InOrder` and `RateBudget.InOrder`: instants that do not go
backwards, asked for only where the property needs it.

Where a promise holds only under a condition, the exact condition is proved for all inputs, with a run or an
input that breaks it:

- A bare holder can be stranded: `RegistrySafety.TeardownSafety` says exactly when. A stray release, a
  termination and a forced removal each suffice alone (`RegistrySafety.OrphanedStraggler`,
  `RegistrySafety.ReviverShortfall`, `RegistrySafety.ForcedStraggler`), and with none of the three no run
  strands a holder (`RegistrySafety.NoneIsStranded`).
- The projected retry instant can come too early. The clock is sampled before the counter's lock is taken, so
  it may lag the counter's last update: `RateCounter.RetryKeepsItsPromise`,
  `RateCounter.StaleClockBreaksThePromise`, and for the limits there are `RateTrackers.TiersKeepTheirPromise`.
- The trading tracker's cap, which its documentation says always holds, does not, because snapping an
  untracked pair never evicts: `TradingTracker.SizeStaysWithinTheCap`, `TradingTracker.CapIsExceeded`.
- `handle_update` is documented to pass the frames of a non-live entry through, and does not test for a
  tombstone: `RegistryBooks.PassesThroughIff`, `RegistryBooks.TombstoneStillMaintains`.
- The replay list is independent of map iteration exactly when no two live keys share an order key:
  `ReplayOrder.DeterminedIffUntied`. Only the two book channels of one pair share one
  (`ReplayOrder.OrderTellsApart`, `ReplayOrder.BookAndRawTie`), and callers never store both: they store wire
  channels, and `ReplayOrder.WireRunsAreUntied` rules such runs out.

An attempt exactly at `throttle_until_monotonic` is still refused, because pruning is strict
(`RateBudget.ThrottleInstantIsExact`).

## Model

| member | source | states |
|---|---|---|
| RegistryLedger.Simulation | rust/src/conn/subscription_registry.rs:329-535 | over every legal run of registers, bare releases, guard drops, acks, terminations and forced removals the registry matches the ideal ledger: live count = bare slots + current guards, tombstone holders = the slots and guards still owed, credits = those minted by revivals less those consumed since the key was inserted |
| RegistryLedger.StepMatches | rust/src/conn/subscription_registry_sweep_tests.rs:205-317 | every single operation keeps the relation between registry and ledger at every key |
| RegistryLedger.RevivalMatches | rust/src/conn/subscription_registry.rs:345-395 | a revival converts exactly the dead lifetime's bare slots, less the slot of a bare reviver, into credits added to the older ones |
| RegistryLedger.ReleasedMatches | rust/src/conn/subscription_registry.rs:439-500 | an anonymous release pays a credit first, then takes a bare slot, else does nothing, exactly as the ledger says, live or tombstone |
| RegistryLedger.DroppedMatches | rust/src/conn/subscription_registry.rs:521-535 | a guard of the current lifetime takes exactly its own slot and never a credit |
| RegistryLedger.GuardRegisterMatches | rust/src/conn/subscription_registry.rs:506-516 | a guard register with its recorded reference joins the guards of the current generation, whichever lifetime that is |
| RegistryLedger.TerminateMatches | rust/src/conn/subscription_registry.rs:691-719 | termination turns the live holders into the countdown, once per lifetime |
| RegistryLedger.RegistryUntouched | rust/src/conn/subscription_registry.rs:329-719 | an operation leaves the entry, mirror row and guard references of every other key alone |
| RegistrySafety.TeardownSafety | rust/src/conn/subscription_registry.rs:439-535 | unless forced, a key goes only when no undropped guard of its lifetime is left, and then a bare hold of that lifetime is outstanding if and only if stray or other-lifetime releases took more of its slots than its own holders' releases left untaken |
| RegistrySafety.HoldersAreConserved | rust/src/conn/subscription_registry_sweep_tests.rs:106-203 | what an entry still counts plus the slots taken by others equals its guards, outstanding bare holds and own releases that took none; it is at least one, and an entry is a tombstone exactly when its count is zero |
| RegistrySafety.PresentForAHolder | rust/src/conn/subscription_registry_sweep_tests.rs:106-203 | no key lingers past its last holder unless one of its own holders' releases took no slot |
| RegistrySafety.OrphanedStraggler | rust/src/conn/subscription_registry_sweep_tests.rs:467-491 | some legal run with stray releases but no termination and no forced removal strands a bare holder |
| RegistrySafety.ReviverShortfall | rust/src/conn/subscription_registry_sweep_tests.rs:493-519 | some legal run with a termination but no stray release and no forced removal strands a bare holder |
| RegistrySafety.ForcedStraggler | rust/src/conn/subscription_registry.rs:590-611 | some legal run with a forced removal but no stray release and no termination strands a later bare holder |
| RegistrySafety.NoneIsStranded | rust/src/conn/subscription_registry_sweep_tests.rs:106-203 | a run without stray releases, terminations and forced removals never strands a bare holder |
| RegistrySafety.SubscribeGate | rust/src/conn/subscription_registry.rs:325-329 | register reports one, the gate of the wire subscribe, exactly when a lifetime begins |
| RegistrySafety.UnsubscribeGate | rust/src/conn/subscription_registry.rs:425-434 | a release or guard drop reports the live count it leaves, so zero means not live |
| RegistrySafety.MirrorAgrees | rust/src/conn/subscription_registry.rs:396-407 | after every operation the mirror has exactly the entries' keys, each row with its entry's state and its lifetime's start stamp |
| RegistrySafety.GenerationsGrow | rust/src/conn/subscription_registry.rs:336-371 | an entry keeps its generation or gets one above every generation handed out before |
| RegistrySafety.DeadForever | rust/src/conn/subscription_registry.rs:336-371 | over every run, a lifetime that ends by removal or revival has a generation below that of every later entry of its key: generations are never reused |
| RegistrySafety.DeadDropIsForgotten | rust/src/conn/subscription_registry.rs:521-535 | dropping a guard of a dead lifetime forgets its reference and changes nothing else |
| RegistrySafety.OutlivedIsDead | rust/src/conn/subscription_registry.rs:521-535 | after every legal run, a guard whose lifetime is over in the ledger has a reference the registry treats as stale |
| RegistrySafety.DeadGuardsAreNotFelt | rust/src/conn/subscription_registry.rs:521-535 | after every legal run, dropping a guard whose lifetime is over answers the live count, and every later run leaves the same entries, counts, credits, mirror and epoch as without the drop |
| RegistrySafety.EpochSound | rust/src/conn/subscription_registry.rs:302-305 | any two states of a run with the same epoch have the same live keys and routes, hence agree on `has_url_entry` for every url |
| RegistrySafety.EpochRests | rust/src/conn/subscription_registry.rs:445-482 | absorbed and gated releases, the tombstone countdown, acks and repeated terminations leave the epoch alone |
| RegistrySafety.ForcedRemovals | rust/src/conn/subscription_registry.rs:593-660 | a forced removal takes exactly its key, its channel's keys, or every key |
| RegistrySafety.UnrecordedDropTakesAHolder | rust/src/conn/subscription_registry.rs:518-535 | a drop without a recorded reference takes one holder and no credit |
| RegistrySafety.RecordedWhenPresent | rust/src/conn/subscription_registry.rs:506-516 | a guard is recorded in the generation its key is in, and not at all when the key is absent |
| RegistryStore.SubscriptionRegistry.constructor | rust/src/conn/subscription_registry.rs:310-322 | a new registry is empty |
| RegistryStore.SubscriptionRegistry.Register | rust/src/conn/subscription_registry.rs:329-409 | the nested maps, mirror, counters and returned count become what the registry's value says: count, credits, options, book, sequence and generation of a fresh, joined or revived entry |
| RegistryStore.SubscriptionRegistry.BumpOrRevive | rust/src/conn/subscription_registry.rs:341-395 | a joiner only adds to the count; a reviver brings its options and book, restarts the sequence and settles the credits; a fresh entry starts |
| RegistryStore.SubscriptionRegistry.ReleaseInner | rust/src/conn/subscription_registry.rs:439-500 | the credit arm, the bare-slot gate, the countdown and the live decrement refine the registry's value and return its answer |
| RegistryStore.SubscriptionRegistry.Release | rust/src/conn/subscription_registry.rs:432-434 | a bare release, with both bare-only arms |
| RegistryStore.SubscriptionRegistry.RecordGuardRef | rust/src/conn/subscription_registry.rs:506-516 | records the present entry's generation, or nothing |
| RegistryStore.SubscriptionRegistry.ReleaseGuardRef | rust/src/conn/subscription_registry.rs:521-535 | forgets the reference and releases unless it was recorded in another generation |
| RegistryStore.SubscriptionRegistry.Deregister | rust/src/conn/subscription_registry.rs:593-611 | removes the entry and its row, and the channel's map with its last pair: no empty per-channel map remains |
| RegistryStore.SubscriptionRegistry.DeregisterAll | rust/src/conn/subscription_registry.rs:616-660 | takes out every entry, or one channel's, with their rows, and returns exactly those in teardown order, each tagged a tombstone exactly when it was terminated |
| RegistryStore.SubscriptionRegistry.NoteSequence | rust/src/conn/subscription_registry.rs:413-423 | a channel-wide entry remembers the sequence and reports the frames skipped, none after a snapshot, a restart or a revival |
| RegistryStore.SubscriptionRegistry.NoteAcked | rust/src/conn/subscription_registry.rs:674-686 | pending becomes acked in entry and row; anything else is left alone |
| RegistryStore.SubscriptionRegistry.NoteTerminated | rust/src/conn/subscription_registry.rs:691-719 | one terminal transition per lifetime, written through to the row, moving the epoch |
| RegistryStore.SubscriptionRegistry.HasUrlEntry | rust/src/conn/subscription_registry.rs:938-942 | answers whether some live entry routes to the url, whatever the iteration order |
| RegistryStore.SubscriptionRegistry.EntriesForResubscribeSorted | rust/src/conn/subscription_registry.rs:830-842 | every live entry of the url exactly once, no tombstone, in replay order |
| RegistryStore.SubscriptionRegistry.ComposeSubscribeFramesForUrl | rust/src/conn/subscription_registry.rs:847-865 | one frame per listed entry, in that order |
| RegistryStore.SubscriptionRegistry.ComposeFirstSignedSubscribe | rust/src/conn/subscription_registry.rs:884-901 | the frame of a live entry that none precedes, or nothing exactly when none is live |
| RegistryStore.SubscriptionRegistry.ComposeRemainingSignedSubscribes | rust/src/conn/subscription_registry.rs:906-918 | every entry live now, once and in order, but for the key already sent |
| RegistryStore.SubscriptionRegistry.LiveSubscribeKeysForUrl | rust/src/conn/subscription_registry.rs:923-933 | the same listing with the excluded key left out |
| RegistryStore.FirstFrameThenRest | rust/src/conn/subscription_registry.rs:884-918 | after every run, with the registry unchanged, the first frame followed by the remaining ones is a full batch in order, and the very batch composed at once when no two live keys share an order key, as when only wire channels are stored |
| RegistryStore.RemainingAreTheDeferredKeys | rust/src/conn/subscription_registry.rs:906-933 | after every run the remaining frames and the deferred keys are the frames of every live entry but the key already sent, and one list when no two live keys share an order key, as when only wire channels are stored |
| ReplayOrder.DeterminedIffUntied | rust/src/conn/subscription_registry.rs:826-842 | the replay list is independent of map iteration if and only if no two listed keys share an order key |
| ReplayOrder.BookAndRawTie | rust/src/types/channel.rs:47-51 | a run that stores one pair under both book channels leaves those two keys live with one order key |
| ReplayOrder.OrderTellsApart | rust/src/conn/subscription_registry.rs:1002-1011 | two keys share an order key if and only if they are equal or the two book channels of one pair |
| ReplayOrder.ListingIsUnique | rust/src/conn/subscription_registry.rs:826-842 | two ordered listings of the same untied entries are equal |
| ReplayOrder.WireRunsAreUntied | rust/src/api/subscription_namespace.rs:121-127 | when only wire channels are stored, no run has two live keys the order cannot tell apart |
| ReplayOrder.LessTrichotomy | rust/src/conn/subscription_registry.rs:1002-1011 | the order keys are totally ordered |
| ReplayOrder.OrderOnKeys | rust/src/conn/subscription_registry.rs:1002-1011 | one key precedes another exactly when it is channel-wide and the other a pair, or else its wire name comes first, or else its symbol comes first in dictionary order |
| ReplayOrder.ListingsAscend | rust/src/conn/subscription_registry.rs:830-842 | in every listing no pair comes before a channel-wide key, and wire names and then symbols ascend |
| ReplayOrder.WireNameReadBack | rust/src/types/channel.rs:66-88 | every wire name is read back as its wire channel |
| ReplayOrder.SortByOrder | rust/src/conn/subscription_registry.rs:837-841 | sorting gives an ordered permutation that keeps entries of one order key in the order they came in |
| BookSide.WindowExact | rust/src/book/builder.rs:225-257 | for a truthful delta that deletes the window levels gone, trimming the updated window gives exactly the new side's best levels if and only if the delta carried every new or changed one |
| BookSide.WindowExactRun | rust/src/book/builder.rs:225-257 | over any run of such deltas the side stays the best levels of the full side |
| BookSide.HeadroomRun | rust/src/book/builder.rs:204-257 | while at most depth - n levels have been removed since the seed, the best n levels are those of the side never trimmed |
| BookSide.HeadroomIsTight | rust/src/book/builder.rs:250-257 | with one removal more, every bid or ask side deeper than the window has a delta after which the best n differ |
| BookPrices.SnapshotLevels | rust/src/book/builder.rs:204-222 | after a snapshot a level is held exactly when it is the last of its price in it, zero quantities included |
| BookPrices.DeltaLevels | rust/src/book/builder.rs:225-247 | after a delta a level is held exactly when it is the delta's last word on its price and no deletion, or was held and the delta is silent on its price |
| BookPrices.DeletesAZero | rust/src/book/builder.rs:109-125 | a delta level deletes exactly when the digits of its wire quantity read as zero |
| BookPrices.TrimmedInPrices | rust/src/book/builder.rs:250-257 | trimming keeps as many levels as fit, and no bid dropped is as high, no ask dropped as low, as one kept |
| BookPrices.UpdateInPrices | rust/src/book/builder.rs:295-321 | the caller's update is the best bids by falling and the best asks by rising price, with their quantities, to the depth asked for |
| BookPrices.ChecksumInPrices | rust/src/book/builder.rs:272-292 | the checksum is one CRC-32 of stripped price and quantity of the ten lowest asks by rising price, then of the ten highest bids by falling price |
| BookBuilder.ChecksumHeadroom | rust/src/book/builder.rs:204-292 | after a snapshot the maintained book's checksum is that of the untrimmed book fed the same deltas, while removals per side total at most depth - 10 |
| BookBuilder.MaintainedBookIsTheWindow | rust/src/book/builder.rs:225-321 | a book following the exchange by such deltas has, on both sides, the window, the checksum and the caller's view of the full book |
| BookBuilder.DeltaRunSide | rust/src/book/builder.rs:225-269 | the two sides evolve independently, and checksum verdicts never change a level |
| BookBuilder.OrderBookBuilder.constructor | rust/src/book/builder.rs:146-161 | a new builder holds no level and counts no gap |
| BookBuilder.OrderBookBuilder.BeginResync | rust/src/book/builder.rs:185-190 | both sides and the last checksum go, the resync flag is set, the gap count stays |
| BookBuilder.OrderBookBuilder.NoteReseedFailure | rust/src/book/builder.rs:198-201 | one more consecutive gap, and nothing else |
| BookBuilder.OrderBookBuilder.ApplySnapshot | rust/src/book/builder.rs:204-222 | both sides become the best levels of the snapshot, unfiltered, before the checksum verdict |
| BookBuilder.OrderBookBuilder.ApplyDelta | rust/src/book/builder.rs:225-247 | level by level insertion and deletion, then trimming, then the verdict |
| BookBuilder.OrderBookBuilder.TrimToDepth | rust/src/book/builder.rs:250-257 | popping the worst levels leaves exactly the best `depth` of each side |
| BookBuilder.OrderBookBuilder.ValidateAndRecord | rust/src/book/builder.rs:259-269 | a match records the checksum and ends the streak; a mismatch counts a gap and keeps the book |
| BookBuilder.OrderBookBuilder.ComputeChecksum | rust/src/book/builder.rs:272-292 | the checksum of the ten best asks followed by the ten best bids |
| BookBuilder.OrderBookBuilder.BuildUpdate | rust/src/book/builder.rs:295-321 | both sides best first, capped to the caller's depth |
| BookBuilder.TrimSide | rust/src/book/builder.rs:250-257 | repeated removal of the worst key is the best `depth` levels |
| BookBuilder.TakeValues | rust/src/book/builder.rs:272-292 | taking n values of a sorted map lists its n best levels, best first |
| Checksum.UpdateStripped | rust/src/book/checksum.rs:35-55 | for strings of any length the 32-byte buffer feeds the hasher exactly the stripped string |
| Checksum.BufferByte | rust/src/book/checksum.rs:44-52 | a full buffer is handed over before it is reused: no byte is lost or repeated |
| Checksum.ComputeBookCrc32 | rust/src/book/checksum.rs:14-29 | the checksum is one CRC-32 of all the stripped bytes, asks then bids |
| Checksum.CrcChunks | rust/src/book/checksum.rs:14-55 | how the hasher's input is cut does not change the CRC-32 |
| Checksum.KnownValue | rust/src/book/checksum.rs:14-29 | the CRC-32 of the single digit one has its standard value |
| Checksum.StripKeepsTheSignificantBytes | rust/src/book/checksum.rs:31-55 | stripping removes the dots and then a run of zeros, keeping everything from the first non-zero byte |
| GapRecovery.GapBudget | rust/src/conn/subscription_registry.rs:222-278 | over every run of a fresh builder at most four gaps or retries follow the last validated apply; the fifth failure is terminal, happens once, drops the builder, and every later frame passes through |
| GapRecovery.ResyncWindow | rust/src/conn/subscription_registry.rs:222-242 | from the start of a resync to the next applied snapshot no event puts a level in the book or yields a maintained update |
| GapRecovery.SnapshotEndsTheWindow | rust/src/book/builder.rs:204-222 | a snapshot of this symbol closes the window whether or not its checksum matches, and reseeds both sides |
| BookFeed.FrameIsApplied | rust/src/conn/subscription_registry.rs:247-275 | a frame that reaches the book is applied as the kind of frame it is; the checksum alone decides between maintained, a gap naming both checksums, and the spent budget |
| BookFeed.FeedIsDelivered | rust/src/conn/subscription_registry.rs:222-278 | over every feed, a snapshot and then deltas that follow the exchange, from any state the book was in, every frame is maintained and delivers the exchange's best levels, and the book is in step after each |
| BookFeed.DeliveredInPrices | rust/src/book/builder.rs:295-321 | after any frames, resyncs and timers a delivered update is the book's best levels, bids falling and asks rising in price |
| BookFeed.TimerAnswers | rust/src/conn/subscription_registry.rs:795-820 | the exact conditions for a fired timer to retry, to give up and to be stale |
| BookFeed.LostSnapshot | rust/src/conn/subscription_registry.rs:795-820 | while the snapshot never comes the timer retries until the budget is spent, gives up once and is stale ever after |
| RegistryBooks.PassesThroughIff | rust/src/conn/subscription_registry.rs:747-765 | a frame passes through exactly when the key has no book, or the frame does not parse or is for another symbol and is not held back by a resync; whether the entry is live plays no part |
| RegistryBooks.TombstoneStillMaintains | rust/src/conn/subscription_registry.rs:747-765 | there is a legal run that leaves a tombstone whose next snapshot is delivered as maintained |
| RegistryBooks.PlaySimulation | rust/src/conn/subscription_registry.rs:222-278 | with books driven in between in any way the registry still simulates the ledger of its operations |
| RegistryBooks.EntryOfItsLifetime | rust/src/conn/subscription_registry.rs:329-395 | over every run a present entry routes where its key came in, carries the options and the book of the subscriber its lifetime began with, has been acked or terminated with its cause exactly when that happened since, and has the last sequence and the book events since; a later joiner changes none of it and a revival restarts all but the route |
| RegistryBooks.ReplayIsOfTheLifetimes | rust/src/conn/subscription_registry.rs:830-865 | over every legal run the replay of a url is exactly the keys whose lifetime is live and routes there, each with the options its lifetime began with |
| RegistryBooks.UrlEntryIsLive | rust/src/conn/subscription_registry.rs:938-942 | a url has an entry exactly when some key's lifetime is live in the ledger and routes there |
| RegistryBooks.SeededBook | rust/src/conn/subscription_registry.rs:185-215 | only a per-pair book subscription with a maintained depth has a book; it is named for its pair, shows the depth asked for and keeps at least 25 levels |
| RegistryBooks.EntryFollowsTheExchange | rust/src/conn/subscription_registry.rs:222-278 | when the latest events of a key's lifetime are a snapshot of the exchange and its deltas, whatever came before or happened to other keys, the entry's book is in step with the exchange |
| RegistryBooks.NextFrameIsDelivered | rust/src/conn/subscription_registry.rs:222-278 | the next delta of such a feed is answered as maintained with the exchange's best levels |
| RegistryBooks.EntryDeliversInPrices | rust/src/book/builder.rs:295-321 | whatever an entry's book delivers, over every run, has strictly falling bids and strictly rising asks |
| RegistryBooks.NumbersAreAccounted | rust/src/conn/subscription_registry.rs:117-136 | over rising sequences the frames received and the frames reported skipped make up the whole distance |
| RegistryBooks.SkippedReports | rust/src/conn/subscription_registry.rs:117-136 | a snapshot, a first frame, a duplicate and a regression report nothing; a jump reports the frames between, saturated |
| RegistryBooks.LifetimeGapBudget | rust/src/conn/subscription_registry.rs:222-278 | within one lifetime of a key, whatever happens around it, the gap budget bounds its book |
| GapRecovery.BookEntry.DriveUpdate | rust/src/conn/subscription_registry.rs:222-278 | the outcome of one frame and the slot it leaves |
| GapRecovery.BookEntry.BeginBookResync | rust/src/conn/subscription_registry.rs:770-776 | begins the resync of a builder, and does nothing without one |
| GapRecovery.BookEntry.NoteReseedTimeout | rust/src/conn/subscription_registry.rs:795-820 | a stale timer changes nothing; a live one counts a failure, and the fifth drops the builder |
| RateCounter.BucketBound | rust/src/rate_limit/counter.rs:62-102 | over any stretch of any run, with instants in any order, 0 <= level <= cap and accepted charges total at most cap + decay over the advance of `last_updated` + credits |
| RateCounter.RejectionIsInvisible | rust/src/rate_limit/counter.rs:70-82 | with non-decreasing instants, deleting every rejected charge leaves an all-accepted run after which every continuation is answered the same |
| RateCounter.DecayComposes | rust/src/rate_limit/counter.rs:62-67 | recording the decay at one instant changes no level projected later |
| RateCounter.RetryInstantIsExact | rust/src/rate_limit/mod.rs:45-62 | after a refusal a unit charge is accepted exactly from the projected instant on, later by as much as the supplied clock lagged the counter, for a decaying limit that can hold a unit within the projection clamp |
| RateCounter.RetryKeepsItsPromise | rust/src/rate_limit/mod.rs:45-62 | for every limit and clock, a unit charge at the projected instant is accepted if and only if the cap holds a unit and either there was room for it already or the clock did not lag the counter and the missing room decays within the clamp |
| RateCounter.StaleClockBreaksThePromise | rust/src/rate_limit/counter.rs:62-82 | a full counter with a clock ten seconds behind it refuses the unit charge at the instant it projected |
| RateCounter.CreditUndoesCharge | rust/src/rate_limit/counter.rs:70-89 | refunding an accepted charge at once leaves every later level as if it had not been made |
| RateCounter.CreditMakesRoom | rust/src/rate_limit/counter.rs:85-89 | a refund makes exactly its cost of room, as far as there is anything to refund |
| RateCounter.SaturatingIsChargeOrSnap | rust/src/rate_limit/counter.rs:92-102 | a saturating charge is a charge when it fits and a snap when it does not |
| RateCounter.SnapLeavesTheDecay | rust/src/rate_limit/counter.rs:99-102 | after a snap exactly what has decayed since can be charged |
| RateCounter.RateLimitCounter.constructor | rust/src/rate_limit/counter.rs:33-42 | a fresh counter is empty at its creation instant |
| RateCounter.RateLimitCounter.PeekCurrent | rust/src/rate_limit/counter.rs:62-67 | the level less decay, floored at zero, with a backwards clock decaying nothing |
| RateCounter.RateLimitCounter.Charge | rust/src/rate_limit/counter.rs:70-82 | accepts exactly what fits the decayed level; a refusal only records the decay; the instant never goes back |
| RateCounter.RateLimitCounter.Credit | rust/src/rate_limit/counter.rs:85-89 | refunds down to zero |
| RateCounter.RateLimitCounter.ChargeSaturating | rust/src/rate_limit/counter.rs:92-96 | charges up to the cap and never refuses |
| RateCounter.RateLimitCounter.SnapToCap | rust/src/rate_limit/counter.rs:99-102 | fills the counter |
| RateTrackers.SpotApiRateLimitTracker.Consume | rust/src/rate_limit/api.rs:45-154 | charges one key's counter, created on first use; a misrouted scope is refused untouched; a refusal reports the level, the cap and the retry instant |
| RateTrackers.SpotApiRateLimitTracker.SnapToCap | rust/src/rate_limit/api.rs:202-224 | fills one key's counter, creating it when absent |
| RateTrackers.ConsumeKeepsTier | rust/src/rate_limit/api.rs:45-154 | every counter stays within its tier's cap and decays at its tier's rate |
| RateTrackers.HeadroomIsWhatFits | rust/src/rate_limit/api.rs:159-177 | a charge is accepted at an instant exactly when it is at most the headroom reported there |
| RateTrackers.WaitForHeadroomIsExact | rust/src/rate_limit/api.rs:182-198 | with nothing charged since, a charge the tier can hold is accepted at once when no wait is reported, else exactly from the wait on, counted from the query or from the counter's last update when the clock lags it |
| RateTrackers.TiersKeepTheirPromise | rust/src/rate_limit/tier.rs:19-52 | for every tier, API and trading, the retry instant is kept exactly when the clock did not lag the counter or there was room for a unit anyway |
| RateTrackers.RefusalIsHonest | rust/src/rate_limit/api.rs:111-128 | a refusal reports the level and cap of the counter left, and a unit request at its retry instant is accepted exactly when the clock was in order or a unit had room; in order and short, it is refused at every earlier instant |
| RateTrackers.PairScopeIsMisrouted | rust/src/rate_limit/api.rs:45-70 | a request for a pair is refused with nothing to report and changes nothing |
| RateTrackers.SnapExhaustsTheKey | rust/src/rate_limit/api.rs:202-224 | after a snap exactly what has decayed since is accepted for the key, and other keys are left alone |
| RateTrackers.FullLoadAfterSnap | rust/src/rate_limit/tier.rs:19-52 | how long each tier's snapped counters need to hold a full load again |
| TradingTracker.OrderListsTheTracked | rust/src/rate_limit/trading.rs:201-336 | over every run the access order is a duplicate-free listing of exactly the tracked keys |
| TradingTracker.SizeStaysWithinTheCap | rust/src/rate_limit/trading.rs:201-326 | over every run the map stays within the cap if and only if no untracked pair was snapped while the map was full |
| TradingTracker.CapIsExceeded | rust/src/rate_limit/trading.rs:292-304 | whatever the cap, there is a run past it |
| TradingTracker.StepSize | rust/src/rate_limit/trading.rs:71-336 | an operation grows the map by exactly one when it charges a new key that finds room or snaps a new pair, else not at all |
| TradingTracker.SizeIsBounded | rust/src/rate_limit/trading.rs:201-326 | over every run the map holds at most the cap plus the snaps of untracked pairs |
| TradingTracker.LeastRecentIsEvicted | rust/src/rate_limit/trading.rs:201-231 | a charge that evicts takes the tracked key charged or snapped longest ago, never its own |
| TradingTracker.NeverEvictedIsUnaffected | rust/src/rate_limit/trading.rs:71-336 | a key never evicted has the counter, and its charges the answers, of a tracker that never evicts |
| TradingTracker.RunWithinLimits | rust/src/rate_limit/trading.rs:71-336 | over every run each counter stays within its tier's cap and decays at its tier's rate |
| TradingTracker.RefusalIsHonest | rust/src/rate_limit/trading.rs:125-156 | a refusal reports the level and cap of the counter left, and its retry instant is kept exactly when the clock was in order or a unit had room; in order and short, a unit is refused at every earlier instant |
| TradingTracker.RefundUndoesCharge | rust/src/rate_limit/trading.rs:260-268 | refunding an accepted charge at once leaves the pair's later answers as if it had not been made |
| TradingTracker.AccountChargeIsPairByPair | rust/src/rate_limit/trading.rs:273-283 | each pair of the account is charged where the cost fits and snapped where it does not, and no other pair changes |
| TradingTracker.SnapExhaustsThePair | rust/src/rate_limit/trading.rs:288-304 | after a snap exactly what has decayed since is accepted for the pair |
| TradingTracker.SnapExhaustsTheAccount | rust/src/rate_limit/trading.rs:305-336 | after an account snap the same holds of every pair tracked for it, and other accounts' answers are unchanged |
| TradingTracker.AccountSnapIsRecent | rust/src/rate_limit/trading.rs:305-336 | an account snap makes its pairs more recent than every pair of another account |
| TradingTracker.TouchedKeepsTheListing | rust/src/rate_limit/trading.rs:201-231 | touching evicts the front of the order exactly when a new key finds the map full |
| TradingTracker.SpotTradingRateLimitTracker.constructor | rust/src/rate_limit/trading.rs:46-67 | an empty tracker whose cap is at least one |
| TradingTracker.SpotTradingRateLimitTracker.TouchLru | rust/src/rate_limit/trading.rs:201-231 | insert or promote, evicting first, keeping order and map in step |
| TradingTracker.SpotTradingRateLimitTracker.Consume | rust/src/rate_limit/trading.rs:71-196 | charges the pair after touching it and reports the verdict and who was evicted |
| TradingTracker.SpotTradingRateLimitTracker.Credit | rust/src/rate_limit/trading.rs:260-268 | refunds a tracked pair without promoting it |
| TradingTracker.SpotTradingRateLimitTracker.ChargeAccountWide | rust/src/rate_limit/trading.rs:273-283 | charges every tracked pair of the account and no other, refusing and promoting nothing |
| TradingTracker.SpotTradingRateLimitTracker.SnapToCap | rust/src/rate_limit/trading.rs:288-336 | fills one pair, inserting it without eviction, or every tracked pair of an account, each promoted once in the order the map gives |
| RateBudget.AtMostBudgetPerWindow | rust/src/conn/rate_budget.rs:64-101 | over every run with non-decreasing instants no closed interval one window long holds more than `budget` admitted attempts |
| RateBudget.ThrottleInstantIsExact | rust/src/conn/rate_budget.rs:64-101 | after a rejection a later try is rejected up to and including the throttle instant, changing nothing, and admitted strictly after it |
| RateBudget.ConnectionRateBudget.TryConsume | rust/src/conn/rate_budget.rs:64-83 | prunes, then admits and records, or reports the use, the budget and the throttle instant |
| RateBudget.ConnectionRateBudget.PruneOld | rust/src/conn/rate_budget.rs:92-101 | drops the attempts strictly before the cutoff |
| NonceSource.ReturnedNoncesClimb | rust/src/auth/nonce.rs:55-73 | in every interleaving an earlier returned nonce is below a later one exactly when it is below the top of the range |
| NonceSource.LaterCallsReturnMore | rust/src/auth/nonce.rs:55-73 | whatever is returned after a point of a run exceeds everything returned before it |
| NonceSource.NonceIsNextOrClock | rust/src/auth/nonce.rs:55-73 | in every interleaving each nonce is one above the one returned before it or a clock reading further ahead |
| NonceSource.NoncesAreBounded | rust/src/auth/nonce.rs:55-73 | the n-th nonce is at most the highest clock reading plus n |
| NonceSource.StrictBelowTheTop | rust/src/rest/surface.rs:231-258 | while the clock and the number of nonces leave room below the top, nonces returned and requests sent strictly increase without exception |
| NonceSource.SignedRequestsArriveInOrder | rust/src/rest/surface.rs:231-258 | across callers, retries, failed signatures and nonces taken outside the gate, requests enter the transport in strictly increasing nonce order |
| NonceSource.GateIsNeeded | rust/src/rest/surface.rs:231-258 | without the gate two requests signed in turn can be sent the other way round |
| NonceSource.SystemClockNonceSource.NextNonce | rust/src/auth/nonce.rs:55-73 | against any finite interference the nonce is the clock reading when that exceeds every value the counter held, else exactly one above the highest it held, saturating at the top |
| RetryLoop.RunRetryLoop | rust/src/rest/surface.rs:281-330 | an attempt is followed by another exactly when it was the first refused for its nonce, whatever the budget, or failed transiently within it; at most one attempt goes over the budget |
| FormEncoding.FormRoundTrip | rust/src/auth/mod.rs:178-231 | decoding recovers every list of fields from its encoded form |
| FormEncoding.EncodingIsInjective | rust/src/auth/mod.rs:178-201 | two lists of fields with the same body are the same |
| FormEncoding.CapacityIsExact | rust/src/auth/mod.rs:178-226 | the body fills the reserved capacity but for one trailing separator |
| FormEncoding.BodyIsAForm | rust/src/auth/mod.rs:178-231 | the body is plain bytes and upper-case escapes with one `=` in each field and one `&` between fields, and nothing else |
| FormEncoding.BytesEncode | rust/src/auth/mod.rs:206-231 | a byte is written as itself exactly when it is a letter, a digit or one of `-._~`, else as its upper-case escape |
| FormEncoding.EncodedLenIsExact | rust/src/auth/mod.rs:206-226 | the bytes written for a string are exactly its `encoded_len` |
| FormEncoding.EncodeInto | rust/src/auth/mod.rs:206-218 | appends exactly the encoded string, byte by byte |
| FormEncoding.BuildForm | rust/src/auth/mod.rs:178-201 | the body decodes to the fields and never outgrows the capacity reserved |

## Left out

- Sockets, HTTP, TLS, timeouts, tasks, tracing and event publication: a signed send is an append to a log inside the gate.
- JSON parsing and frame building, token injection and request ids: levels and frames are typed values, and a subscribe frame is its key and options.
- HMAC, SHA-256, base64, secrets and their redaction: no state property of this code.
- The event bus, the I/O reactor, the managed connection and the caller-side surface are not part of this model; the reactor's calling protocol is `RegistryLedger.Protocol`.
- `RegistryStore` has no method that drives a book: the entry's book is a value there, its composition with the registry is `RegistryBooks` on values, and the in-place builder and entry are the classes of `BookBuilder` and `GapRecovery`.
- `project_state`, `params_for`, `is_terminated`, `is_book_resyncing`: one-line readers.
- `ClOrdIdPairIndex`, dispatch tables, error mapping, retry classification and backoff, age-cost brackets: tabular.
- Lock poisoning, u32, u64 and usize overflow of counts and generations, and f64 rounding: counts are unbounded and amounts exact. The nonce's u64 saturation is modelled.
- The warning debounce, utilisation warnings and the trading tracker's test-only headroom.
- Subscribe options other than a maintained book's depth are opaque values, copied and never interpreted.
- The rate-limit charge before the gate and the snap on a rejection are modelled in the trackers, not as steps of the signed send.
- NonceSource.SystemClockNonceSource.NextNonce: interference is a finite list, because a weak exchange may fail forever; `NonceSource.Run` has no such bound.
- RateCounter.RetryInstantIsExact: says nothing of charges above one unit, for which the source makes no promise.
