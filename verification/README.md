# Verified model of the GE Appliances bridge

A Dafny model of the firmware component in `components/geappliances_bridge`, with proofs about whole runs of
its parts. The command to verify it is `dafny verify dfyconfig.toml`.

The bridge reads numbered data items (ERDs) from the boards of an appliance over a serial bus and republishes
them over MQTT. The model covers:

- **ERD cache and publisher** (`ErdCacheSpec`, `ErdCache`, `CacheProtocol`, `CacheRuns`, `CacheThrottle`,
  `CachePublisher`). A fixed entry table and a bump arena stand for a map from (ERD, board address) to bytes. The
  main loop and the publisher task share it; each lock hold and the publish itself is one event, so an event
  sequence is an interleaving. The main results compare what the broker's topics and payloads mean with the
  updates themselves, over every interleaving, whatever is cooling or in flight when the main loop falls silent,
  and whatever the broker has lost when everything is republished.
- **Topic grammar** (`ErdTopic`). Printing and parsing over NUL-terminated buffers.
- **Polling bridge** (`PollSpec`, `PollTheorems`, `PollOutcomes`, `PollLosses`, `PollBridge`). A transition
  system in which an event carries the environment's choices: which read was answered, how many reads a burst
  sent before its time budget ran out, which of them were dropped. The class runs the firmware's handlers over
  an arbitrary clock and client, and each handler is proved to be one step.
- **Subscription bridge** (`SubscribeSpec`, `SubscribeBridge`). The five-state machine with its retention and
  quiet timers, over the sorted-array set and the registry.
- **Sets and lists** (`Sorting`, `ErdSet`, `ErdRegistry`, `PollList`). Sorted arrays against mathematical sets;
  the probe list sorted and compacted in place.
- **Discovery publisher** (`DiscoverySpec`, `DiscoveryTheorems`, `DiscoveryManager`). The one-message-per-call
  walk against the nested loop over categories, chunks and lines, both passing on the buffers that outlive a line.
- **Feature bits** (`FeatureBits`, `FeatureBitManager`). The read sequence and the incremental parse against
  one batch pass.
- **Autodiscovery** (`Framing`, `AutodiscoverySpec`, `Autodiscovery`). The byte assembler, the end-of-frame decision
  and the probing states, up to which response wins.
- **Adler-32** (`Adler32`). The unrolled loop with one reduction a block against section 9 of RFC 1950.

Each component is written twice: as pure functions, on which the theorems are stated, and as classes and
methods with the fields, arrays and loops of the firmware, whose contracts equate every new state with those
functions. Ghost fields record what a theorem about runs needs: the reads a client owes, the cycles begun and
finished, the calls made and what became of them, the time of the last new ERD, the messages accepted so far.
What a byte string, a topic, a frame or a mask means is said apart from the code that produces or reads it, by
an encoder, a grammar, a field-by-field constructor or its bits.

## Where the code and its documentation differ

The model follows the code.

- **Giving up polling.** The specification says the bridge fails after three consecutive cycles with a failure
  (`docs/spec/erd_bridge_poll.md:222`), a header comment speaks of cycles in which all ERDs fail
  (`erd_bridge_poll.h:57-59`). In the code any one failed answer makes a failed cycle, a dropped read does not,
  and the count is looked at only when the last answer of a cycle is a failure. If the restarted cycle is
  dropped whole, it finishes at once and clears the count. `GivesUpExactly` states this with the wrap of the
  8-bit counter.
- **Counting failed cycles across a loss.** A failed read noted in an unfinished cycle survives a loss of the
  appliance, because neither the probe nor the polling entry clears the flag, and is charged to the first cycle
  afterwards. The bridge may then give up after two failed cycles (`LossIsMiscounted`). It takes a list longer than
  the ten reads of a batch, so that a cycle can stop half sent with nothing owed; for shorter lists, and only for
  those, every run gives up for cause (`FailsForCauseExactly`).
- **Dropped probe reads.** The client's return value is ignored while probing, so a dropped read leaves the phase
  waiting for the appliance-lost timer (`ProbeMovesExactly`).
- **Send budget.** 100 ms in the code (`erd_bridge_poll.cpp:23`), 500 ms in the specification
  (`docs/spec/erd_bridge_poll.md:186`). The theorems hold for every budget and clock.
- **Re-probing.** The ERD set is cleared only if the polling list is not empty, and neither the sending flag nor
  the timer flag is reset. Both are in the model.
- **Subscription failure.** Called terminal in the specification (`docs/spec/erd_bridge_subscribe.md:115`); a
  valid publication of a new ERD leaves it (`FailureLastsExactly`).
- **Short frames.** The end-of-frame check demands six bytes but looks at up to nine, so it may read what earlier
  frames left in the buffer. `ShortFramesUseLeftovers` says for exactly which frames that matters.

Two branches of the code would matter only to other callers than the firmware itself. A topic that does not fit
leaves an entry's mark cleared (`erd_cache_mqtt_publisher.cpp:310-312`); the identity manager keeps ids in 92-byte
buffers (`device_identity_manager.h:63-64`) and the configuration limits them to 91 characters (`__init__.py:145`), so
the branch is not reached and no update is lost (`BufferedIdsLoseNothing`). The feature-bit manager's `init` does not
clear the queued flag; the bridge calls it once (`geappliances_bridge_bridge_init.cpp:93-113`), and `Restart` says what
a second call would do: the manager goes on exactly if no read was queued, or the same client still owes the first
feature ERD of the same board address; the answer of any other board is dropped
(`feature_bit_manager.cpp:116-155`).

## Model

| member | source | states |
|---|---|---|
| ErdCacheSpec.SlicesDisjoint | components/geappliances_bridge/erd_cache.cpp:161-181 | two entries never share an arena byte, because offsets are the running totals of the sizes before them |
| ErdCacheSpec.SliceFits | components/geappliances_bridge/erd_cache.cpp:161-181 | no entry reaches past the bump pointer, so slices tile [0, arena_offset) exactly |
| ErdCacheSpec.ContentsHas | components/geappliances_bridge/erd_cache.cpp:349-353 | every slot in use contributes its own bytes under its own key to the map the cache stands for |
| ErdCacheSpec.ContentsSize | components/geappliances_bridge/erd_cache.cpp:250-261 | keys are unique: the map has exactly one binding per slot in use |
| ErdCacheSpec.FindAgrees | components/geappliances_bridge/erd_cache.cpp:90-99 | the linear scan finds a slot exactly when the map has the key, and that slot holds the mapped bytes |
| ErdCacheSpec.UpdateRefinesMap | components/geappliances_bridge/erd_cache.cpp:101-188 | one update is the corresponding update of the map: at its own key only, exactly when the size limit, the size fixed at registration, the number of keys and the sum of the value lengths allow it; the flag is true exactly if the map changed |
| ErdCacheSpec.UsedIsVolume | components/geappliances_bridge/erd_cache.cpp:160-176 | the bump pointer is the sum of the lengths of all values, so capacity is a matter of the map alone |
| ErdCacheSpec.UpdateBySlot | components/geappliances_bridge/erd_cache.cpp:101-188 | an update marks exactly the entries whose bytes it changed or created; a new entry may go out at once; no key, offset or size of an existing entry ever changes |
| ErdCacheSpec.SnapshotKeepsMap | components/geappliances_bridge/erd_cache.cpp:228-248 | handing out an entry moves no slot and changes no stored byte |
| ErdCacheSpec.MarksKeepMap | components/geappliances_bridge/erd_cache.cpp:311-330 | settling an entry, either way, moves no slot and changes no stored byte |
| ErdCacheSpec.SweepsKeepMap | components/geappliances_bridge/erd_cache.cpp:297-308 | mark-all and tick move no slot and change no stored byte |
| ErdCaches.ErdCache.constructor | components/geappliances_bridge/erd_cache.cpp:70-77 | a new cache stands for the empty map |
| ErdCaches.ErdCache.Reset | components/geappliances_bridge/erd_cache.cpp:45-68 | a reset cache stands for the empty map, whatever it held |
| ErdCaches.ErdCache.FindSlot | components/geappliances_bridge/erd_cache.cpp:90-99 | returns the slot of the key, or the table length exactly when the map lacks it |
| ErdCaches.ErdCache.UpdateEntry | components/geappliances_bridge/erd_cache.cpp:101-196 | in place, exactly the specified new cache and flag; the map gains the binding exactly when it is stored |
| ErdCaches.ErdCache.SnapshotNextUpdated | components/geappliances_bridge/erd_cache.cpp:204-248 | hands out the first eligible entry from the cursor on with its current bytes, clears its mark, and resets the cursor when there is none |
| ErdCaches.ErdCache.MarkAll | components/geappliances_bridge/erd_cache.cpp:297-308 | marks every entry in use and ends its cooldown; the map stays |
| ErdCaches.ErdCache.MarkEntryPublished | components/geappliances_bridge/erd_cache.cpp:311-319 | starts the cooldown of the slot if throttling is on; the map stays |
| ErdCaches.ErdCache.MarkEntryUnpublished | components/geappliances_bridge/erd_cache.cpp:324-330 | marks the slot again; the map stays |
| ErdCaches.ErdCache.Tick | components/geappliances_bridge/erd_cache.cpp:334-345 | counts down the cooldown of every marked entry; the map stays |
| ErdCaches.ErdCache.Count | components/geappliances_bridge/erd_cache.cpp:250-261 | the number of keys in the map |
| ErdCaches.ErdCache.SetThrottleRate | components/geappliances_bridge/erd_cache.cpp:198-201 | changes the rate and nothing else |
| CacheProtocol.StepKeepsSound | components/geappliances_bridge/erd_cache.cpp:101-345 | every lock hold keeps the cache well formed, frees no slot and moves none; a slot in flight stays in use |
| CacheRuns.RunMovesNothing | components/geappliances_bridge/erd_cache.cpp:101-345 | in no interleaving an entry is freed, moved, resized or given another key |
| CacheRuns.RunRefinesMap | components/geappliances_bridge/erd_cache.cpp:101-345 | after any interleaving of both sides the cache holds exactly what a map holds after the same updates |
| CacheRuns.StoredKeyHolds | components/geappliances_bridge/erd_cache.cpp:101-188 | after any run a registered key is still bound, to the last update of its size or, if there was none, to its old value |
| CacheRuns.LatestIsLast | components/geappliances_bridge/erd_cache.cpp:112-145 | that value is the data of the last fitting update, with none after it |
| CacheRuns.NewKeyHolds | components/geappliances_bridge/erd_cache.cpp:146-188 | a new key is bound after a run exactly if one of its updates found room when it came; it then holds the last update of the size of the first such one |
| CacheRuns.BrokerSettles | components/geappliances_bridge/erd_cache_mqtt_publisher.cpp:255-313 | from every state of the invariant, entries cooling and a publish in flight included, the publisher left alone with a working broker for 255 ticks and 301 rounds makes the broker hold payloads that mean everything stored, on topics that name the keys |
| CacheRuns.BrokerHoldsTheMap | components/geappliances_bridge/erd_cache_mqtt_publisher.cpp:255-313 | after any interleaving whatever, 255 ticks and 301 rounds later the broker holds, for every key, a payload that means what a map holds after the same updates |
| CacheRuns.BrokerHoldsLastUpdate | components/geappliances_bridge/erd_cache_mqtt_publisher.cpp:255-313 | from start-up, whatever is interleaved, the broker ends up with a payload that decodes to the last accepted update of every key |
| CacheRuns.MarkAllMarks | components/geappliances_bridge/erd_cache.cpp:297-308 | after mark-all every stored entry may go out at once, whatever was cooling |
| CacheRuns.RepublishRestores | components/geappliances_bridge/erd_cache_mqtt_publisher.cpp:386-396 | whatever the broker held or lost, from every state of the invariant: after mark-all and any interleaving the broker ends up with everything stored |
| CacheRuns.IdleRepublishes | components/geappliances_bridge/erd_cache_mqtt_publisher.cpp:386-396 | if the publisher is idle when the client reconnects after a long outage, 301 rounds restore everything with no waiting |
| CacheRuns.BufferedIdsLoseNothing | components/geappliances_bridge/device_identity_manager.h:63-64 | with an id from the 92-byte buffers of the identity manager no interleaving loses an update |
| CacheProtocol.HexBytesCarries | components/geappliances_bridge/erd_cache_mqtt_publisher.cpp:287-291 | the payload published for a byte string means it: two lowercase digits a byte, which read as that byte |
| CacheProtocol.CarriesOne | components/geappliances_bridge/erd_cache_mqtt_publisher.cpp:287-291 | a payload means one byte string at most |
| CacheProtocol.TopicNames | components/geappliances_bridge/erd_cache_mqtt_publisher.cpp:280-285 | the topic of a key reads, by the grammar, as the value of its ERD on the primary board for the primary board and on its own address for any other |
| CacheProtocol.TopicReadsBack | components/geappliances_bridge/erd_write_bridge.cpp:46-46 | reading a published topic back, with the legacy form for the primary board, gives the key it was published for, and no other topic form |
| CacheProtocol.StepKeepsInductive | components/geappliances_bridge/erd_cache_mqtt_publisher.cpp:255-313 | every step of either side keeps the invariant that carries no-lost-update |
| CacheProtocol.RunKeepsInductive | components/geappliances_bridge/erd_cache_mqtt_publisher.cpp:255-313 | the same for every interleaving, from any state that satisfies it |
| CacheProtocol.NoUpdateIsEverLost | components/geappliances_bridge/erd_cache_mqtt_publisher.cpp:255-313 | for any device id handed to the publisher: in every interleaving every entry that is neither marked nor in flight has a payload at the broker that means its bytes, if and only if the id leaves room for the longest topic |
| CacheProtocol.TooLongLosesUpdate | components/geappliances_bridge/erd_cache_mqtt_publisher.cpp:282-312 | for every device id that is too long, a run of three steps after which an update is lost: a format failure leaves the mark cleared |
| CacheProtocol.QuiescentBrokerIsCurrent | components/geappliances_bridge/erd_cache_mqtt_publisher.cpp:255-313 | once nothing is marked and the publisher is idle, the broker holds, on a topic that names the key, a payload that means the stored bytes |
| CacheProtocol.PublisherKeepsContents | components/geappliances_bridge/erd_cache.cpp:204-330 | no run of the publisher task changes what is stored |
| CacheProtocol.RoundsDrain | components/geappliances_bridge/erd_cache.cpp:204-223 | one round per marked entry, and one more if the cursor stands behind one, clears all marks |
| CacheProtocol.ThrottleHolds | components/geappliances_bridge/erd_cache.cpp:311-345 | between an accepted publish of an entry and the next publish of it lie at least as many ticks as the rate, in every run without mark-all |
| CacheThrottle.RateIsLastSet | components/geappliances_bridge/erd_cache.cpp:198-201 | in every run the throttle is at the rate last set |
| CacheThrottle.CooldownIs | components/geappliances_bridge/erd_cache.cpp:311-345 | in every run without mark-all or a further settled publish of the slot its cooldown is what it was less the ticks that found it marked with the throttle on |
| CacheThrottle.ThrottleExactly | components/geappliances_bridge/erd_cache.cpp:198-345 | after a settled publish at a positive rate, whatever is interleaved, the entry may go out again if and only if it is marked and as many ticks as the rate found it marked, or the throttle was turned off |
| CacheProtocol.OverlookedAtMost | components/geappliances_bridge/erd_cache.cpp:204-223 | an eligible slot is overlooked by at most as many scans as the cursor needs to come around |
| CacheProtocol.ScanIsFair | components/geappliances_bridge/erd_cache.cpp:204-248 | of any 301 scans that find a slot eligible, one hands it out, unless the cursor is reset from outside |
| CacheProtocol.ResetStartsOver | components/geappliances_bridge/erd_cache_mqtt_publisher.cpp:391-398 | after the cursor is reset the next scan hands out the first slot of all that may go out, or finds none |
| CachePublisher.Publisher.FillHex | components/geappliances_bridge/erd_cache_mqtt_publisher.cpp:287-291 | the buffer holds the payload that means the data, and a NUL |
| CachePublisher.Publisher.Take | components/geappliances_bridge/erd_cache_mqtt_publisher.cpp:270-277 | the locked part of a wake is exactly the snapshot event of the protocol |
| CachePublisher.Publisher.PublishHeld | components/geappliances_bridge/erd_cache_mqtt_publisher.cpp:279-313 | formatting, publishing and settling are exactly the publish and settle events of the protocol |
| CachePublisher.Publisher.PublishOne | components/geappliances_bridge/erd_cache_mqtt_publisher.cpp:255-341 | one undisturbed wake is the three publisher events in a row; disconnected or paused it touches neither cache nor broker and counts the loop |
| CachePublisher.Publisher.OnConnected | components/geappliances_bridge/erd_cache_mqtt_publisher.cpp:343-402 | after an outage of a minute or more exactly the mark-all and cursor-reset events, otherwise none |
| CachePublisher.Publisher.OnDisconnected | components/geappliances_bridge/erd_cache_mqtt_publisher.cpp:403-428 | an outage is measured from its first disconnect |
| ErdTopic.HexReads | components/geappliances_bridge/erd_topic.cpp:57-67 | reading a printed hex field gives back the value |
| ErdTopic.HexReprints | components/geappliances_bridge/erd_topic.cpp:57-67 | printing a read hex field gives it back in lowercase |
| ErdTopic.CaseIsIgnored | components/geappliances_bridge/erd_topic.cpp:48-67 | the case of hex letters makes no difference to the value read |
| ErdTopic.PrintedSpells | components/geappliances_bridge/erd_topic.cpp:22-39 | what is printed for a board, ERD and operation is a topic that means exactly them |
| ErdTopic.PrintedInjective | components/geappliances_bridge/erd_topic.h:1-14 | different boards, ERDs or operations never share a topic |
| ErdTopic.SpelledReprints | components/geappliances_bridge/erd_topic.h:1-14 | a text that means a topic is its print, up to the case of the hex digits |
| ErdTopic.TopicForms | components/geappliances_bridge/erd_topic.h:1-14 | the two forms letter by letter, with the operation names, for the only lowercase spellings of address and ERD |
| ErdTopic.RoundTrip | components/geappliances_bridge/erd_topic.cpp:22-121 | the printed text means the printed topic and no other |
| ErdTopic.Format | components/geappliances_bridge/erd_topic.cpp:22-39 | fails exactly when the text and its NUL do not fit, and otherwise leaves the printed topic as the C string in the buffer |
| ErdTopic.FormatThenParse | components/geappliances_bridge/erd_topic.cpp:22-121 | for every buffer, device, board, ERD and operation: if printing fits, parsing that same buffer gives the topic back |
| ErdTopic.ParseThenFormat | components/geappliances_bridge/erd_topic.cpp:22-121 | printing what was parsed gives the text back with its hex fields, and nothing else, in lowercase |
| ErdTopic.At | components/geappliances_bridge/erd_topic.cpp:49-121 | all parsing reads through this function, whose precondition rules out every character past the terminator |
| ErdTopic.Parse | components/geappliances_bridge/erd_topic.cpp:69-121 | for every NUL-terminated buffer: accepts exactly the texts of the grammar for this device and returns what they mean |
| ErdTopic.ParseSecondary | components/geappliances_bridge/erd_topic.cpp:94-104 | accepts exactly the two-digit address form and returns both numbers |
| ErdTopic.ParseHexFixed | components/geappliances_bridge/erd_topic.cpp:57-67 | accepts exactly a full-width field of hex digits before the terminator and returns its value |
| PollTheorems.StepKeepsInv | components/geappliances_bridge/erd_bridge_poll.cpp:265-468 | every event keeps the ledger of the cycle, the liveness of the timer and the pairing of cycle starts and ends |
| PollTheorems.RunKeepsInv | components/geappliances_bridge/erd_bridge_poll.cpp:265-468 | the same for every run |
| PollTheorems.CycleIsConserved | components/geappliances_bridge/erd_bridge_poll.cpp:129-153 | completed plus outstanding equals the index, and read for read the answered and the owed ones are the requests of the entries attempted so far, each once, in every run |
| PollTheorems.CyclesNeverOverlap | components/geappliances_bridge/erd_bridge_poll.cpp:78-105 | when a cycle begins, the one before has finished and every list entry has been answered or dropped exactly once |
| PollTheorems.NeverStalls | components/geappliances_bridge/erd_bridge_poll.cpp:359-392 | in every run the timer is armed, or a restart is pending and a read is owed; never a pending restart with the timer armed |
| PollTheorems.CyclesKeepFinishing | components/geappliances_bridge/erd_bridge_poll.cpp:359-429 | in a stay in polling over n list entries a cycle finishes within any 2n + 5 events |
| PollTheorems.ProbeMovesExactly | components/geappliances_bridge/erd_bridge_poll.cpp:114-127 | the return value of the client being ignored, a probe phase goes on if and only if its current read was queued: then any answer takes it to its next read or to polling; otherwise no run without a loss of the appliance changes anything |
| PollTheorems.ReadsGoToTheirBoards | components/geappliances_bridge/erd_bridge_poll.cpp:114-153 | if answers come from the boards asked and the host address is physical: in every run a probe read goes to the entry own board or else the host, and the reads of a cycle, answered and owed, are exactly the listed (ERD, board) pairs attempted so far |
| PollOutcomes.FailureNeedsThreeFailedCycles | components/geappliances_bridge/erd_bridge_poll.cpp:416-429 | in every run in which no loss of the appliance comes while a failed read is noted in an unfinished cycle, a failed bridge has finished three cycles in a row that each contained a failed read |
| PollLosses.LossIsMiscounted | components/geappliances_bridge/erd_bridge_poll.cpp:286-346 | for every list longer than a batch of ten, a run in which a read fails, the appliance is lost in the same cycle, and the bridge then gives up after two failed cycles: the noted failure was charged to the first cycle after the loss |
| PollLosses.FailsForCauseExactly | components/geappliances_bridge/erd_bridge_poll.cpp:173-211 | over all runs, losses of the appliance included, the bridge gives up only after three finished cycles in a row with a failed read, if and only if the probe list fits one batch of ten |
| PollOutcomes.GivesUpExactly | components/geappliances_bridge/erd_bridge_poll.cpp:416-429 | exactly when an answer makes the bridge give up: it is a failure, it is the last of the cycle, the count reaches three, and the restarted cycle is not dropped whole |
| PollOutcomes.OnlyLossRecovers | components/geappliances_bridge/erd_bridge_poll.cpp:431-470 | a bridge that gave up asks for nothing and only takes the answers still owed; once none is, and no sooner, a loss of the appliance starts a new probe phase with nothing listed and no failure counted |
| PollOutcomes.ProbeIsExact | components/geappliances_bridge/erd_bridge_poll.cpp:286-327 | with every probe read of a phase queued and answered, polling starts with the last answer and the list is the ordered dedup of the successful ones, cut at capacity, whatever the state before the phase |
| PollBridges.PollBridge.constructor | components/geappliances_bridge/erd_bridge_poll.cpp:484-541 | starts in the initial state of the transition system |
| PollBridges.PollBridge.AddErdToPollingList | components/geappliances_bridge/erd_bridge_poll.cpp:45-58 | appends a new (ERD, address) pair while there is room, and registers its ERD |
| PollBridges.PollBridge.OnPollingCycleComplete | components/geappliances_bridge/erd_bridge_poll.cpp:78-105 | counts a failed cycle or clears the count, then starts the next cycle at once or leaves it to the timer |
| PollBridges.PollBridge.SendNextReadRequest | components/geappliances_bridge/erd_bridge_poll.cpp:114-127 | reads the next probe entry, at the host address if it has none of its own, or reports that none is left |
| PollBridges.PollBridge.SendNextPollReadRequest | components/geappliances_bridge/erd_bridge_poll.cpp:129-153 | a dropped read counts as completed and may complete the cycle |
| PollBridges.PollBridge.SendPollReadRequestsBounded | components/geappliances_bridge/erd_bridge_poll.cpp:173-185 | sends a positive number of reads: a multiple of ten, or up to the end of the list |
| PollBridges.PollBridge.SendCycleReads | components/geappliances_bridge/erd_bridge_poll.cpp:194-211 | whatever the clock shows, one legal burst, with the sending flag telling whether it was interrupted |
| PollBridges.PollBridge.EnterProbeState | components/geappliances_bridge/erd_bridge_poll.cpp:286-308 | entry to probing, which goes on to polling at once when there is nothing to probe |
| PollBridges.PollBridge.EnterPollingState | components/geappliances_bridge/erd_bridge_poll.cpp:334-346 | entry to polling |
| PollBridges.PollBridge.OnProbeAnswer | components/geappliances_bridge/erd_bridge_poll.cpp:222-326 | takes exactly one step of the transition system |
| PollBridges.PollBridge.OnPollAnswer | components/geappliances_bridge/erd_bridge_poll.cpp:393-429 | takes exactly one step of the transition system, restart and failure included |
| PollBridges.PollBridge.OnPollingTimer | components/geappliances_bridge/erd_bridge_poll.cpp:359-392 | takes exactly one step of the transition system |
| PollBridges.PollBridge.OnApplianceLost | components/geappliances_bridge/erd_bridge_poll.cpp:265-284 | takes exactly one step of the transition system, from any state |
| SubscribeSpec.RunKeepsInv | components/geappliances_bridge/erd_bridge_subscribe.cpp:15-220 | the invariant behind the next two rows holds in every run |
| SubscribeSpec.TimersAndQuietPeriod | components/geappliances_bridge/erd_bridge_subscribe.cpp:139-220 | in every run the quiet timer runs exactly while subscribed, the retention timer exactly while subscribed or steady, failures never exceed three, and steady means a nonempty ERD set and no new ERD for the full quiet period |
| SubscribeSpec.RefusedIsRepeated | components/geappliances_bridge/erd_bridge_subscribe.cpp:94-105 | in every run of a subscribing bridge the last request was taken or the timer runs, which it does only after a refusal; its expiry makes another request and arms it again exactly if that is refused |
| SubscribeSpec.RenewsEveryPeriod | components/geappliances_bridge/erd_bridge_subscribe.cpp:61-65 | in every run one retention is asked for at every expiry that finds the bridge subscribed or steady, and none otherwise; the timer is armed in both states |
| SubscribeSpec.QuietDecides | components/geappliances_bridge/erd_bridge_subscribe.cpp:51-59 | in every run the quiet timer is due exactly a quiet period after the entry to subscribed, and its expiry leads to steady if anything is registered and to failed if nothing is |
| SubscribeSpec.RegisteredAreThePublished | components/geappliances_bridge/erd_bridge_subscribe.cpp:20-42 | between host restarts the registered ERDs are exactly the published ones that pass the filter, through every state, as far as they fit |
| SubscribeSpec.RegisteredSinceRestart | components/geappliances_bridge/erd_bridge_subscribe.cpp:80-120 | across a host restart: what was registered is forgotten exactly if the bridge was still subscribing, and what is published afterwards is added |
| SubscribeSpec.FailureLastsExactly | components/geappliances_bridge/erd_bridge_subscribe.cpp:20-42 | once it has given up, the bridge stays failed through a run exactly as long as no unregistered ERD that passes the filter is published |
| SubscribeSpec.GivesUpAfterThree | components/geappliances_bridge/erd_bridge_subscribe.cpp:80-105 | while the appliance is silent the bridge gives up exactly with the third refused subscription or host restart, the entry to the state included |
| SubscribeSpec.RegisteredPass | components/geappliances_bridge/erd_bridge_subscribe.cpp:30-33 | registered ERDs pass a filter that was set from the start |
| SubscribeBridges.SubscribeBridge.constructor | components/geappliances_bridge/erd_bridge_subscribe.cpp:234-280 | starts in the initial state, with no registry |
| SubscribeBridges.SubscribeBridge.ToSubscribed | components/geappliances_bridge/erd_bridge_subscribe.cpp:139-150 | exit from any state and entry to subscribed, which restarts both timers and clears the failures |
| SubscribeBridges.SubscribeBridge.ToSubscribing | components/geappliances_bridge/erd_bridge_subscribe.cpp:88-105 | exit from subscribed or steady and entry to subscribing, which counts as a failure until confirmed |
| SubscribeBridges.SubscribeBridge.ToFailed | components/geappliances_bridge/erd_bridge_subscribe.cpp:199-210 | exit from any state and entry to failed, which stops both timers |
| SubscribeBridges.SubscribeBridge.OnPublication | components/geappliances_bridge/erd_bridge_subscribe.cpp:20-42 | over the sorted-array set and the registry, exactly one step of the transition system |
| SubscribeBridges.SubscribeBridge.OnConfirmed | components/geappliances_bridge/erd_bridge_subscribe.cpp:107-109 | exactly one step of the transition system |
| SubscribeBridges.SubscribeBridge.OnHostOnline | components/geappliances_bridge/erd_bridge_subscribe.cpp:80-105 | exactly one step of the transition system, from any state |
| SubscribeBridges.SubscribeBridge.OnSubscribeFailed | components/geappliances_bridge/erd_bridge_subscribe.cpp:94-105 | exactly one step of the transition system |
| SubscribeBridges.SubscribeBridge.OnTimerExpired | components/geappliances_bridge/erd_bridge_subscribe.cpp:61-65 | exactly one step of the transition system |
| SubscribeBridges.SubscribeBridge.OnQuietExpired | components/geappliances_bridge/erd_bridge_subscribe.cpp:51-59 | exactly one step of the transition system |
| ErdSets.ErdSet.Search | components/geappliances_bridge/erd_bridge_common.h:89-119 | binary search: membership, and where the element is or belongs |
| ErdSets.ErdSet.Contains | components/geappliances_bridge/erd_bridge_common.h:89-104 | membership in the set the array stands for |
| ErdSets.ErdSet.Add | components/geappliances_bridge/erd_bridge_common.h:106-127 | true exactly when the element was new and there was room; the set then grows by it and the array stays strictly sorted |
| ErdSets.ErdSet.Clear | components/geappliances_bridge/erd_bridge_common.h:129-132 | the empty set |
| ErdSets.SizeOfIncreasing | components/geappliances_bridge/erd_bridge_common.h:78-82 | the array counter is the size of the set |
| ErdSets.LayoutIsCanonical | components/geappliances_bridge/erd_bridge_common.h:106-127 | the array is determined by the set: no history of insertions shows in it |
| ErdRegistries.AdditionsAre | components/geappliances_bridge/erd_registry.cpp:24-48 | the additions are the new ERDs, each once |
| ErdRegistries.AdditionsInOrder | components/geappliances_bridge/erd_registry.cpp:24-48 | the additions are the new ERDs in input order, each where it first occurs |
| ErdRegistries.FitsMeansUnion | components/geappliances_bridge/erd_registry.cpp:24-48 | while everything fits, loading and adding accept exactly the union |
| ErdRegistries.ErdRegistry.SetValidErds | components/geappliances_bridge/erd_registry.cpp:7-22 | loads the ERDs up to capacity, sorted; an empty input changes nothing |
| ErdRegistries.ErdRegistry.AddValidErds | components/geappliances_bridge/erd_registry.cpp:24-48 | adds what is new up to capacity, only if the registry is loaded |
| ErdRegistries.ErdRegistry.AppendNew | components/geappliances_bridge/erd_registry.cpp:30-45 | searching only the sorted part misses no duplicate |
| ErdRegistries.ErdRegistry.IsValid | components/geappliances_bridge/erd_registry.cpp:50-56 | before loading everything is valid, afterwards exactly what was loaded |
| PollLists.CompactElements | components/geappliances_bridge/erd_poll_list_builder.cpp:57-69 | compacting loses no element |
| PollLists.CompactOrders | components/geappliances_bridge/erd_poll_list_builder.cpp:57-69 | compacting a sorted list leaves it strictly increasing |
| PollLists.BuiltListIsDetermined | components/geappliances_bridge/erd_poll_list_builder.cpp:57-69 | strict order and element set determine the built list |
| PollLists.SourcesAre | components/geappliances_bridge/erd_poll_list_builder.cpp:71-120 | exactly what is eligible in each mode: custom ERDs always, and outside subscribe mode those of the feature bits or else the common, energy, feature and own-type groups at the default address |
| PollLists.SelectedComeFirst | components/geappliances_bridge/erd_poll_list_builder.cpp:89-95 | a custom ERD never takes the place of a feature-bit ERD |
| PollLists.GroupsComeFirst | components/geappliances_bridge/erd_poll_list_builder.cpp:96-117 | nor of a generated group that fits |
| PollLists.PollListBuilder.AppendStandardErds | components/geappliances_bridge/erd_poll_list_builder.cpp:14-29 | appends as many as fit, at the default address |
| PollLists.PollListBuilder.AppendCustomErds | components/geappliances_bridge/erd_poll_list_builder.cpp:31-44 | appends as many as fit, at their own addresses |
| PollLists.PollListBuilder.CompactInPlace | components/geappliances_bridge/erd_poll_list_builder.cpp:60-68 | the read and write indices keep the first of every run of equal entries |
| PollLists.PollListBuilder.Deduplicate | components/geappliances_bridge/erd_poll_list_builder.cpp:57-69 | strictly increasing, with the same elements |
| PollLists.PollListBuilder.Build | components/geappliances_bridge/erd_poll_list_builder.cpp:71-120 | outside subscribe mode strictly increasing in (ERD, address) with exactly the elements of the capacity-cut sources; in subscribe mode the cut custom list |
| DiscoverySpec.CallConserves | components/geappliances_bridge/ha_discovery_manager.cpp:781-908 | a call leaves handled plus left-to-publish unchanged, whether its publish is accepted, dropped or skipped for want of a client, with the buffers that outlive a line; only a chunk that does not decompress ends this, and such a call handles nothing |
| DiscoverySpec.HitAgain | components/geappliances_bridge/ha_discovery_manager.cpp:864-879 | after a dropped publish the next scan meets the same entity at the same line |
| DiscoveryTheorems.MessagesAreOfLines | components/geappliances_bridge/ha_discovery_manager.cpp:845-895 | the walk meets exactly the rendered nonempty lines of the split chunk, in order, and passes the buffers on as they do |
| DiscoveryTheorems.LinesSplit | components/geappliances_bridge/ha_discovery_manager.cpp:845-857 | the lines hold no line feed or carriage return, and with the separators between them they are the chunk |
| DiscoveryTheorems.InCategoriesAreEverything | components/geappliances_bridge/ha_discovery_manager.cpp:802-902 | over all categories it meets exactly what the nested loop publishes |
| DiscoveryTheorems.OnlyNeeded | components/geappliances_bridge/appliance_type_category.h:25-30 | the nested loop publishes the common, energy and custom categories and that of the appliance type, in order, and no other |
| DiscoveryTheorems.CallWorks | components/geappliances_bridge/ha_discovery_manager.cpp:781-908 | every call that is not spent on a dropped publish reduces the remaining work by one; complete means no work left |
| DiscoveryTheorems.WalkRefinesNestedLoop | components/geappliances_bridge/ha_discovery_manager.cpp:781-908 | for every pattern of dropped publishes and missing clients, what is handled is a prefix of the nested loop output over the needed categories, also in a walk that fails on a chunk, all of it on completion, all of it accepted if there always was a client; a walk completes only if all needed chunks decompress, and then exactly when enough calls were not dropped |
| DiscoveryTheorems.WorkCountsMessages | components/geappliances_bridge/ha_discovery_manager.cpp:781-908 | the work is one call a message of the nested loop, one a chunk of an applicable category, one a category, and two |
| DiscoveryTheorems.NothingSkipped | components/geappliances_bridge/ha_discovery_manager.cpp:865-870 | with a client present throughout no entity is skipped |
| DiscoveryManagers.DiscoveryManager.constructor | components/geappliances_bridge/ha_discovery_manager.cpp:926-953 | the manager is idle until it is started |
| DiscoveryManagers.DiscoveryManager.Start | components/geappliances_bridge/ha_discovery_manager.cpp:1048-1080 | an idle manager goes to the beginning of the walk, or fails if its buffers cannot be allocated |
| DiscoveryManagers.DiscoveryManager.FindLineEnd | components/geappliances_bridge/ha_discovery_manager.cpp:847-853 | the next separator or the end of the chunk |
| DiscoveryManagers.DiscoveryManager.ScanChunk | components/geappliances_bridge/ha_discovery_manager.cpp:845-895 | handles the next line that renders, or reports that there is none; a dropped one stays next |
| DiscoveryManagers.DiscoveryManager.Run | components/geappliances_bridge/ha_discovery_manager.cpp:781-908 | one call is one step of the walk, with or without a client |
| FeatureBits.AfterCommon | components/geappliances_bridge/feature_bit_manager.cpp:302-342 | after n ticks of the common phase the list is the bounded dedup of the first 4n descriptors |
| FeatureBits.AfterSlots | components/geappliances_bridge/feature_bit_manager.cpp:351-393 | then one appliance slot a tick |
| FeatureBits.ParsingIsOneBatch | components/geappliances_bridge/feature_bit_manager.cpp:300-414 | ticking completes in exactly ceil(N/4) + 11 ticks (12 for N = 0) with the order-preserving dedup, cut at capacity, of the selected common, appliance and mandatory ERDs |
| FeatureBits.BigEndianReads | components/geappliances_bridge/geappliances_bridge_constants.h:56-65 | reading big-endian bytes gives the number they were written from |
| FeatureBits.FeatureReads | components/geappliances_bridge/feature_bit_manager.cpp:361-366 | the type, version and bitmap read from a slot are the ones it was written from |
| FeatureBits.ShareIsAnd | components/geappliances_bridge/feature_bit_manager.cpp:321-326 | masking leaves something exactly if a bit below 32 is set in both |
| FeatureBits.ValidExactly | components/geappliances_bridge/feature_bit_manager.cpp:300-414 | in terms of the fields the appliance encoded: an ERD comes out valid only if it is mandatory, or a common descriptor with a set bit names it, or an appliance descriptor of a reported type and version with a set bit does; and all those do unless the list is full |
| FeatureBits.MandatoryIsValid | components/geappliances_bridge/feature_bit_manager.cpp:395-407 | a mandatory ERD is valid unless the list is full |
| Dedup.UniqueIsOrderedDedup | components/geappliances_bridge/feature_bit_manager.cpp:291-298 | each element once, in order of first occurrence, none missing |
| Dedup.AddAllUniqueIsCutUnique | components/geappliances_bridge/feature_bit_manager.cpp:291-298 | bounded insertion one by one is the dedup of the whole cut at capacity |
| FeatureBitManagers.FeatureBitManager.constructor | components/geappliances_bridge/feature_bit_manager.cpp:23-68 | reading from the first feature ERD, nothing queued |
| FeatureBitManagers.FeatureBitManager.Init | components/geappliances_bridge/feature_bit_manager.cpp:23-68 | starts over for the given host address, except that the queued flag keeps its value, and the same client still owes the read it owed |
| FeatureBitManagers.FeatureBitManager.Start | components/geappliances_bridge/feature_bit_manager.cpp:90-101 | queues the first read, or arms the retry, unless the flag says one is queued |
| FeatureBitManagers.FeatureBitManager.Restart | components/geappliances_bridge/feature_bit_manager.cpp:23-101 | re-initialising and starting gets the reads going if and only if no read was queued before, or the client is the same and owes the first feature ERD of the same board address |
| FeatureBitManagers.FeatureBitManager.OnActivity | components/geappliances_bridge/feature_bit_manager.cpp:116-155 | only the awaited answer advances the sequence; it is stored or skipped, skipping the common ERD fails, the eleventh starts the parse, and the manager never stops waiting for something |
| FeatureBitManagers.FeatureBitManager.HandleReadCompleted | components/geappliances_bridge/feature_bit_manager.cpp:157-198 | stores the first eight bytes and goes on |
| FeatureBitManagers.FeatureBitManager.SkipToNextErd | components/geappliances_bridge/feature_bit_manager.cpp:252-275 | fails on the common feature ERD, goes on without data otherwise |
| FeatureBitManagers.FeatureBitManager.QueueErdRead | components/geappliances_bridge/feature_bit_manager.cpp:200-223 | a read is queued or the retry timer runs |
| FeatureBitManagers.FeatureBitManager.QueueRetry | components/geappliances_bridge/feature_bit_manager.cpp:237-250 | the retry keeps the manager going |
| FeatureBitManagers.FeatureBitManager.AddValidErd | components/geappliances_bridge/feature_bit_manager.cpp:291-298 | adds a new ERD while there is room |
| FeatureBitManagers.FeatureBitManager.ReadBigEndian | components/geappliances_bridge/geappliances_bridge_constants.h:56-65 | the shifting loop computes the big-endian value |
| FeatureBitManagers.FeatureBitManager.ParseNextStep | components/geappliances_bridge/feature_bit_manager.cpp:300-414 | one firing is one tick of the specification |
| FeatureBitManagers.FeatureBitManager.ParseAll | components/geappliances_bridge/feature_bit_manager.cpp:277-414 | all firings together take the exact number of ticks and leave the batch result |
| Framing.EncodeEncodes | components/geappliances_bridge/autodiscovery_manager.cpp:176-186 | escaping the control bytes gives an encoding |
| Framing.EncodingBuffers | components/geappliances_bridge/autodiscovery_manager.cpp:176-192 | feeding any encoding buffers exactly the body |
| Framing.BufferAllIs | components/geappliances_bridge/autodiscovery_manager.cpp:305-316 | the buffer holds the body cut at its size, and the CRC is the fold of those bytes |
| Framing.FrameRoundTrip | components/geappliances_bridge/autodiscovery_manager.cpp:165-211 | from any state not in the middle of an escape, STX, an encoding of a body, ETX present exactly one frame with that body and its CRC |
| Framing.FrameAfterEscape | components/geappliances_bridge/autodiscovery_manager.cpp:176-186 | in the middle of an escape the STX is data, if it fits: what is then presented, exactly |
| AutodiscoverySpec.LongFramesDecide | components/geappliances_bridge/autodiscovery_manager.cpp:194-304 | a frame of at least nine (GEA3) or eight (GEA2) bytes is judged by its own bytes |
| AutodiscoverySpec.ShortFramesUseLeftovers | components/geappliances_bridge/autodiscovery_manager.cpp:194-304 | a shorter frame is judged by bytes left from earlier ones if and only if it passes all checks on the bytes it has |
| AutodiscoverySpec.VerdictExactly | components/geappliances_bridge/autodiscovery_manager.cpp:194-304 | the check accepts a buffer exactly if it holds a read response, built field by field, that is a success for the appliance type, sent to this client or to all, with a length that covers its data; the board reported is the one it was built from |
| AutodiscoverySpec.HeardExactly | components/geappliances_bridge/autodiscovery_manager.cpp:165-317 | exactly when a byte makes a board heard: it ends a begun frame of six bytes or more with a good CRC in a buffer that holds a wanted response of that board |
| AutodiscoverySpec.FrameWinsExactly | components/geappliances_bridge/autodiscovery_manager.cpp:165-342 | whatever was received before, a frame on the link listened to makes a winner if and only if it has a good CRC and is a wanted response of a wanted board; the winner is that board |
| AutodiscoverySpec.ResponseWinsExactly | components/geappliances_bridge/autodiscovery_manager.cpp:165-342 | a response built from any field values makes the board that sent it the winner if and only if the CRC is good, the fields are the wanted ones and the board may win |
| AutodiscoverySpec.WinnerStays | components/geappliances_bridge/autodiscovery_manager.cpp:127-147 | in no run do the winning link and address change again, and discovery is complete exactly from the end of the next listening window on |
| AutodiscoverySpec.NeverStuck | components/geappliances_bridge/autodiscovery_manager.cpp:350-437 | once started with a link, discovery listens or is complete in every run |
| AutodiscoverySpec.LinksAlternate | components/geappliances_bridge/autodiscovery_manager.cpp:350-368 | without a winner two links are listened to in turn, window by window, and a single one again and again |
| AutodiscoverySpec.WindowForgets | components/geappliances_bridge/autodiscovery_manager.cpp:127-147 | a window that ends without a winner leaves no trace of what was received in it |
| AutodiscoverySpec.TargetIsSet | components/geappliances_bridge/autodiscovery_manager.cpp:318-330 | once an address is wanted, in no run another board wins |
| AutodiscoverySpec.RunKeepsOk | components/geappliances_bridge/autodiscovery_manager.cpp:108-437 | in every run a winner belongs to the link listened to or discovery is complete, and only existing links are probed |
| Autodiscovery.Assembler.Receive | components/geappliances_bridge/autodiscovery_manager.cpp:165-317 | in place, one step of the assembler and of its receive buffer, and the verdict on the frame it presents |
| Autodiscovery.AutodiscoveryManager.Start | components/geappliances_bridge/autodiscovery_manager.cpp:108-125 | takes exactly one step of the transition system |
| Autodiscovery.AutodiscoveryManager.TimerCallback | components/geappliances_bridge/autodiscovery_manager.cpp:127-147 | takes exactly one step of the transition system; the window timer then runs exactly while a link is listened to |
| Autodiscovery.AutodiscoveryManager.ProcessByte | components/geappliances_bridge/autodiscovery_manager.cpp:165-342 | takes exactly one step of the transition system |
| Adler32.DeferredReduction | components/geappliances_bridge/miniz.cpp:46-72 | reducing only at the end gives the sums reduced at every byte |
| Adler32.BlockFits | components/geappliances_bridge/miniz.cpp:46-72 | no 32-bit sum overflows within a block of 5552 bytes, from any 16-bit halves |
| Adler32.BlockIsLargest | components/geappliances_bridge/miniz.cpp:46-72 | one byte more can overflow |
| Adler32.Chains | components/geappliances_bridge/miniz.cpp:46-72 | checksums of consecutive pieces chain |
| Adler32.ClosedForm | components/geappliances_bridge/miniz.cpp:46-72 | from 1, the checksum is the byte sum and the position-weighted sum modulo 65521 |
| Adler32.AddBlock | components/geappliances_bridge/miniz.cpp:54-66 | the eightfold unrolled loop adds exactly the bytes of its block, without overflow |
| Adler32.MzAdler32 | components/geappliances_bridge/miniz.cpp:46-72 | for every buffer and every start value the RFC 1950 checksum; 1 for a null pointer; terminates although the first block may be empty |

## Left out

- CacheProtocol.NoUpdateIsEverLost: updates come from physical board addresses, never from the broadcast address 0xFF, which the topic grammar reserves for the primary board; an update under 0xFF would share the primary board's topic.
- CachePublisher.Publisher.PublishOne: publish-window counters, pausing and the state mutex are not modelled.
- PollTheorems.RunKeepsInv: the read client answers every queued read exactly once, delivers no foreign reads, and the appliance is reported lost only when no read is outstanding; answers that outlive a re-probe are excluded by that.
- PollTheorems.ReadsGoToTheirBoards: assumes a physical host address and answers that come from the board asked; the code stores whatever address an answer carries.
- PollBridges.PollBridge.SendCycleReads: how soon a burst ends once its budget is used up is not stated; the clock is arbitrary and the other theorems hold for any legal burst.
- PollBridges.PollBridge.AddErdToPollingList: the polling list is a sequence and the ERD set a mathematical set; the shifting array behind the set is proved separately in `ErdSets`.
- PollLists.PollListBuilder.Deduplicate: `std::sort` is a functional insertion sort written back into the array; the library's algorithm is not modelled. The same holds for the registry.
- FeatureBitManagers.FeatureBitManager.Init: a client that is replaced delivers nothing any more, and at most one read of the manager is accounted for at a time.
- SubscribeSpec.RegisteredPass: the registry pointer is cleared on initialisation, so in the firmware a registry set earlier filters nothing; the claim is about a filter set from the start of the run.
- DiscoverySpec.CallConserves: assumes that processing a line again at once repeats its entity and changes no buffer, as the line processor does: it overwrites every buffer a line sets. `DiscoveryTheorems.WalkRefinesNestedLoop` shares this; that a walk never fails and when it completes is said for chunks that decompress.
- DiscoveryManagers.DiscoveryManager.ScanChunk: turning a line into a message is an arbitrary function of the line and of the buffers that outlive it; the fields and payloads themselves are not modelled.
- Framing.FrameRoundTrip: framing bytes and CRC step are parameters, because the GEA library is not part of this model.
- Autodiscovery.AutodiscoveryManager.TimerCallback: the completion callback and the clean-up of the receive subscriptions are foreign calls.
- Adler32.MzAdler32: `size_t` lengths are unbounded naturals; CRC-32 and the rest of `miniz.cpp` are not modelled.
- Statistics, logging, cycle times and 32-bit counter wrap-around: they decide nothing that the properties speak of.
- UART, MQTT, FreeRTOS and ESPHome plumbing, task creation and shutdown delays: foreign calls; their outcomes are arbitrary choices in the model.
- The hierarchical state machine and timer libraries: modelled as exit followed by entry, and as armed flags.
- Null-pointer arguments (except in Adler-32) and operation codes outside the enumeration: rejected by the firmware in its first lines.
- Cache updates made by the polling and subscription bridges: the cache protocol covers updates from any caller.
- The write bridge, the identity manager, the startup state machine, the clean-up topic queue, diagnostics, generated tables and generators: data or short linear sequences.
