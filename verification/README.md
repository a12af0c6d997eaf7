# PacketYeeter: a verified model of its rule, dedup and accounting protocols

PacketYeeter has an *analyzer* that decides which sources to block and which
scrub rules collectors should hold, and *collectors* that enforce both in XDP.
This project models the parts where a fast or compressed form has to agree with
a simple meaning, or where a protocol has to survive failures and every
interleaving, and proves that they do.

The model has four groups of modules.

**Block dedup.** `BlockDedup` is the dedup record of one source address as a
value, `BlockTable` the objects the analyzer updates in place (each operation is
proved equal to a function of `BlockDedup`), and `DedupProtocol` every run of
registrations, snapshots, reservations and releases beside a history of what was
granted. The main theorem, `WithheldOnlyIfGiven`, says that the compressed
broadcast mark never hides a block from a registered collector that did not get
it; `DedupRuns` has the converse, that nobody is sent a block twice, and says
exactly when a decision is published.

**Scrub rules.** From the outside in: `RuleStore` (desired rules per scope, push,
withdrawal), `RuleMargin` (how exact its expiry margin is), `RuleState` (restart),
`RuleDelivery` (the rule command and its acceptance), `RuleParse` (validation and
encoding), `RuleMatchable` (which rules are refused), `RuleLayout`, `PortRanges`,
`SourceList` (the compiled form), `RuleDelta`, `RuleBooks`, `SlotLedger`, `RuleReaders` and `RuleEngine` (the collector's slot
allocator over a kernel whose calls may fail), `RuleRuns` (its whole runs),
`RuleTries` and `RuleBody` (what XDP does with the result). The chain closes in
`RuleDelivery`: `Sync` says exactly when a collector accepts what the analyzer
sends, `TakesInTime` that in time this is a matter of free slots alone, and
`SyncDecides` that the kernel then treats every packet as the controllers' rules
state.

**Evidence.** `CampaignEvents` over `EventRing` (a prune that stops early and is
still exact), `RateLimiter` (token buckets), `ScrubTrust` (verdicts on trusted
streams do not depend on other collectors), `FloodRate` (pruned samples are
invisible).

**Smaller protocols.** `RuleSync`, `FanoutQueue`, `WatchRing`, `Fingerprints`; and
`FanoutDedup`, which runs the fan-out queues of all peers beside the block dedup:
what gives a reservation up, and what a withheld block rests on.

`Basics`, `Orders`, `Prefixes` and `Collections` hold shared definitions. State that the
program updates in place is a class or an array; a protocol between goroutines is
a step function over a state, with a theorem about every trace.

## Conventions and assumptions

- Times are integers (nanoseconds) except in `RateLimiter` and `ScrubTrust`, where
  they are seconds and tokens are reals. Go strings are byte sequences where their
  order or content matters. A masked prefix of length n is its first n bits.
- Reservations see a clock that does not run backwards. The code reads the clock
  before it takes the lock (pkg/analyzer/service.go:1726), so this is an
  assumption, stated as `DedupProtocol.ClockMoves`.
- The rule store makes no such assumption: a push, a sync and a load may carry
  any clock reading, in any order. Of a set handed out by a sync whose reading is
  more than the expiry margin older than that of the last accepted push, or
  received by a collector more than the margin later, a collector may refuse
  all; `RuleMargin.MarginIsExact` shows that these are the only cases, and the
  first is reached by two accepted pushes of 33 small rules.
- `SwapRuleTrie` either replaces a trie or leaves it alone; a failed `PutRuleBody`
  may leave anything in the slot it was writing.
- In `RuleMatchable` a packet is what XDP notes of one: ports for TCP and UDP only, and
  flags for TCP only. An IP length shorter than its header counts as possible, as
  Parse takes it.
- A map iteration may visit keys in any order: loops over maps pick keys
  arbitrarily, and what they compute is proved not to depend on the choice.
- `RuleBooks.Installs` says all that an install of the rule engine does, as a relation
  between values; `Install`, `Apply` and `Expire` promise it. `P(..) == true` in a
  contract is `P(..)`, written so that the verifier does not take it apart.
- After a failed IPv6 swap whose IPv4 restore also fails (`torn`), and in no other
  way, the live IPv4 trie comes not to be the wanted one, until a restore or an
  install succeeds. What is
  claimed then is slot conservation, the grace period, and that the trie left
  behind refers to no slot but installed and retired ones, so that a body write
  can hit it only after the slot's grace is over.
- XDP programs may follow a trie that was live a moment ago. A state is *calm*
  when no free slot belongs to a trie live within the grace period, nor will a
  retired one when it is released. From a calm state no body write hits a slot
  of such a trie, and calm is kept by every install with one exception: when a
  new or changed IPv4 rule was live for a moment, because the IPv6 swap failed
  after the IPv4 swap and the restore then succeeded. The fresh slots are free
  again at once (pkg/collector/rules.go:214), so the state is then not calm.

## Model

| member | source | states |
|---|---|---|
| `BlockDedup.ReserveKeepsBound` | pkg/analyzer/service.go:1757-1811 | every reservation keeps the Broadcast entries of a record within maxBlockSentEntries, also across the start-over branch, and keeps `at` the newest of its times |
| `BlockDedup.BroadcastsCounted` | pkg/analyzer/service.go:1780-1803 | the entries a Broadcast adds are all counted against the bound |
| `BlockDedup.ReserveCovers` | pkg/analyzer/service.go:1679-1684 | after a reservation every target not excluded is covered, by an entry or by the mark |
| `BlockDedup.ReserveSends` | pkg/analyzer/service.go:1775-1803 | everyone uncovered is sent the block; nobody with a live local or fan-out entry is; a covered target is sent again only by a Broadcast that would bring the entries past maxBlockSentEntries |
| `BlockDedup.MarkCoversDue` | pkg/analyzer/service.go:1656-1677 | the new mark covers a collector the snapshot knew of, or one with a larger key, exactly when this reservation sends to it |
| `BlockDedup.PurgedWellFormed` | pkg/analyzer/service.go:1767-1774 | dropping expired entries and marks changes nobody's coverage |
| `BlockDedup.ReleaseMeaning` | pkg/analyzer/service.go:1836-1849 | a release takes away the one entry made at that very time; one of a newer reservation stays, and nothing else changes |
| `BlockTable.BinarySearch` | pkg/analyzer/service.go:1673 | bisection of the sorted skip list decides membership |
| `BlockTable.BlockReservation.SetSent` | pkg/analyzer/service.go:1633-1644 | the entry is overwritten and bcastEntries stays the number of Broadcast entries |
| `BlockTable.BlockReservation.DeleteSent` | pkg/analyzer/service.go:1647-1654 | exactly that entry goes and bcastEntries stays exact |
| `BlockTable.BlockReservation.Covers` | pkg/analyzer/service.go:1669-1675 | the sorted mark covers what the set-based mark covers |
| `BlockTable.BlockReservation.Has` | pkg/analyzer/service.go:1679-1684 | live entry or live mark |
| `BlockTable.BlockReservation.Pending` | pkg/analyzer/service.go:1688-1706 | the copy-on-first-hit loop returns the uncovered targets in order |
| `BlockTable.BlockReservation.NewBroadcastMark` | pkg/analyzer/service.go:1815-1831 | the mark's bound and skip set, sorted |
| `BlockTable.BlockReservation.Reserve` | pkg/analyzer/service.go:1767-1811 | the in-place reservation of one record is `ReserveRecord` of its value, which the lemmas of BlockDedup and, over runs, those of DedupRuns characterise |
| `BlockTable.RecentBlocks.ReserveBlockExcept` | pkg/analyzer/service.go:1757-1811 | the whole table, the sweep time, the targets due and the publish flag are `ReserveBlock` of the old table, with no aliasing between records; `DedupRuns` says what that means for who is sent the block and what is published |
| `BlockTable.RecentBlocks.ReleaseBlock` | pkg/analyzer/service.go:1836-1849 | compare-and-delete of one entry; a newer reservation stays |
| `BlockTable.RecentBlocks.Sweep` | pkg/analyzer/service.go:1851-1868 | at most once a second, drops exactly the records older than twice the TTL and leaves the others as they are |
| `DedupProtocol.StepInv` | pkg/analyzer/service.go:952-987 | the invariant over keys, snapshots, records, outstanding fan-outs and history survives every step, in particular a registration and a Broadcast from an old snapshot |
| `DedupProtocol.RunInv` | pkg/analyzer/service.go:1885-1905 | the invariant holds after every trace |
| `DedupProtocol.WithheldOnlyIfGiven` | pkg/analyzer/service.go:1656-1684 | soundness: a still registered target is withheld the block only if a reservation not since released gave it that source's block less than a TTL ago |
| `DedupProtocol.ReservedIsCovered` | pkg/analyzer/service.go:1737-1756 | completeness: once something is sent, every target is covered, and nobody with a live local or fan-out entry was sent to again |
| `DedupProtocol.BoundedAndSpaced` | pkg/analyzer/service.go:1606-1610 | in every reachable state Broadcast entries stay within the bound, and a source is published at most once per scope per TTL |
| `DedupRuns.PublishedExactly` | pkg/analyzer/service.go:1806-1809 | after any run a reservation publishes its decision if and only if it sends the block to somebody and the history shows no publication of this source at this scope within the TTL |
| `DedupRuns.SentOnce` | pkg/analyzer/service.go:1606-1631 | whoever some step of a run gave the block is not sent it again within the TTL by a decision at any scope, unless the gift was released; one given by a Broadcast also unless a Broadcast of the source went past the bound since |
| `DedupProtocol.GiveUpDelivers` | pkg/analyzer/service.go:1833-1849 | a fan-out given up within the TTL makes the next decision deliver to that peer |
| `RuleParse.BodyMeaning` | pkg/scrubrules/scrubrules.go:81-194 | XDP's match over the sorted, merged and compacted encoding decides exactly the conditions the controller stated, and the encoding carries the stated action: a drop, a pass, or a limit whose budgets of one second are at most the stated rate and less than ten short of it |
| `RuleParse.ParseStable` | pkg/scrubrules/scrubrules.go:97-103 | a rule accepted once is accepted, with the same encoding, at exactly the times before it expires, and keeps its id, priority, destination and expiry |
| `RuleMatchable.RefusedIfUseless` | pkg/scrubrules/scrubrules.go:123-173 | an unexpired rule is refused exactly when it does not fit the encoding or no packet, as XDP describes packets, could meet its conditions together; no accepted rule silently does nothing |
| `RuleParse.RateWindowFaithful` | pkg/scrubrules/scrubrules.go:261-266 | a positive rate never becomes an empty budget; the budgets of one second are at most the rate and less than ten short of it |
| `PortRanges.NormalizeMeaning` | pkg/scrubrules/scrubrules.go:224-247 | the written ranges are sorted, separated by gaps, no more than given, and hold exactly the given ports |
| `PortRanges.NormalFormUnique` | pkg/scrubrules/scrubrules.go:220-247 | the written form depends on the set of ports only |
| `PortRanges.WritePortRanges` | pkg/scrubrules/scrubrules.go:224-247 | fills the buffer in place with the normal form, leaves the rest of it alone, and refuses exactly too many or invalid ranges, touching nothing |
| `PortRanges.PortMatchMeaning` | pkg/collector/ebpf/c/protector.bpf.c:1755-1771 | three bisection steps over the written form decide membership in the ranges as given |
| `SourceList.EncodeSources` | pkg/scrubrules/scrubrules.go:196-218 | the loop computes the encoding: sorted and compacted list, search flag exactly when all lengths agree, span |
| `SourceList.SpanCorrect` | pkg/scrubrules/scrubrules.go:206-217 | the span contains every address of every IPv4 source |
| `SourceList.SpanTight` | pkg/scrubrules/scrubrules.go:206-217 | and it is no wider than it has to be: it starts and ends with a source |
| `SourceList.SameLengthIncreasing` | pkg/scrubrules/scrubrules.go:196-212 | sources of one length are strictly increasing, and no address lies in two of them |
| `SourceList.SourceMatchMeaning` | pkg/collector/ebpf/c/protector.bpf.c:1773-1821 | span check, four-step search or linear scan decide membership in the sources as given |
| `RuleLayout.Flatten` | pkg/scrubrules/scrubrules.go:57-79 | fails exactly when a destination is covered by more than RulesPerDst rules; otherwise the result is a function of the set of rules, whatever the order of the list and of the map |
| `RuleLayout.FlattenedMeaning` | pkg/scrubrules/scrubrules.go:53-56 | longest-prefix match of any address yields all rules covering it, in (priority, id) order, and nothing when none does |
| `RuleLayout.InOrderUnique` | pkg/scrubrules/scrubrules.go:68-74 | one list only holds given rules in evaluation order |
| `Orders.LexMeaning` | pkg/scrubrules/scrubrules.go:68-74 | ids are compared as Go compares strings: one is a prefix of the other, or smaller where they first differ |
| `RuleLayout.SplitFamilies` | pkg/scrubrules/scrubrules.go:42-51 | each family once, without repetition |
| `RuleLayout.CheckCapacity` | pkg/scrubrules/scrubrules.go:30-40 | accepts exactly the sets within RulesMax per family and RulesPerDst per destination |
| `RuleLayout.CapacityMeaning` | pkg/scrubrules/scrubrules.go:30-79 | these are the sets with at most RulesMax rules of either family, of which at most RulesPerDst cover the destination of any one |
| `RuleLayout.CapacitySubset` | pkg/scrubrules/scrubrules.go:30-79 | any part of a set that fits also fits |
| `RuleTries.KernelDecides` | pkg/collector/ebpf/c/protector.bpf.c:1866-1898 | with every body in its slot, the kernel acts on the first matching rule in evaluation order among all rules covering the destination, and on none exactly when none applies |
| `RuleTries.TrieRefers` | pkg/collector/rules.go:258-268 | a trie refers to the slots of its rules and to no others |
| `SlotLedger.ReleaseConserves` | pkg/collector/rules.go:246-256 | releasing keeps every slot in exactly one of free, retired and installed |
| `SlotLedger.ReleaseRespectsGrace` | pkg/collector/rules.go:246-256 | exactly the slots whose grace is over are released |
| `SlotLedger.RollbackConserves` | pkg/collector/rules.go:166-167 | giving taken slots back restores the free list as a set and conserves slots |
| `SlotLedger.RetireConserves` | pkg/collector/rules.go:206-212 | retiring the fresh slots after a failed restore conserves slots |
| `SlotLedger.CommitConserves` | pkg/collector/rules.go:229-244 | committing installs what was taken and retires what nobody uses any more, nothing twice |
| `SlotLedger.RetireDates` | pkg/collector/rules.go:234-238 | a retired slot carries the date of its last retirement, and every free slot stays past its grace |
| `SlotLedger.SlotTotal` | pkg/collector/rules.go:55-66 | free, retired and installed slots add up to the size of the table |
| `RuleReaders.ReleaseCalm` | pkg/collector/rules.go:246-256 | releasing the slots whose grace is over keeps a calm state calm |
| `RuleReaders.ReplaceCalm` | pkg/collector/rules.go:27-29 | replacing a live trie that refers to installed slots only keeps a calm state calm |
| `RuleBooks.NewTrieTouches` | pkg/collector/rules.go:164-192 | the new IPv4 trie refers to a slot taken from the free list if an IPv4 rule is new or changed, and to installed slots only if none is |
| `RuleBooks.SwapReaders` | pkg/collector/rules.go:190-216 | whichever of the swaps and the restore succeed, a calm state stays calm unless a new or changed IPv4 rule was live for a moment, whose slot, taken from the free list, has then just been left |
| `RuleEngine.RuleEngine.constructor` | pkg/collector/rules.go:55-66 | a new engine holds every slot once, free |
| `RuleEngine.RuleEngine.ReleaseRetired` | pkg/collector/rules.go:246-256 | moves exactly the slots whose grace is over, in order |
| `RuleEngine.PlaceRule` | pkg/collector/rules.go:179-186 | writes a body, and resets its rate-limit bucket before the rule counts as placed; the write hits no slot of a live trie unless the IPv4 trie was left behind |
| `RuleEngine.Allocate` | pkg/collector/rules.go:164-188 | succeeds exactly when no kernel call fails and there is a slot for each new or changed rule; unchanged rules keep theirs and with it their rate-limit window; what was taken and what is left are the slots given |
| `RuleEngine.RuleEngine.SwapBoth` | pkg/collector/rules.go:190-216 | both tries change, or the IPv6 trie is untouched and the IPv4 one untouched or restored, unless the restore failed; when slots of live tries were left |
| `RuleEngine.RuleEngine.Commit` | pkg/collector/rules.go:229-244 | the books, slots and grace dates after a successful swap; slots given up are retired from now |
| `RuleEngine.RuleEngine.Install` | pkg/collector/rules.go:149-219 | succeeds exactly when the rules fit, slots suffice and no kernel call fails; on any exit slots are conserved and graced, the clock and the retirement dates move as stated and no others, only slots that were free are written to, installed or freed again, and body writes spare live tries unless one was left behind and, from a calm state, tries live within the grace period; on failure rules and slots are as before, and so are both live tries, unless IPv4 was swapped and both the IPv6 swap and the restore failed; the state stays calm exactly unless a new or changed IPv4 rule was live for a moment |
| `RuleEngine.RuleEngine.LeaveBehind` | pkg/collector/rules.go:200-213 | after a failed restore the fresh slots are retired from now on and the live IPv4 trie refers to nothing but them and installed slots |
| `RuleEngine.RuleEngine.FreeSlotsAreSafe` | pkg/collector/rules.go:206-212 | in every valid state, torn ones included, a free slot that a live trie refers to has been retired for at least the grace period, by the latest time an operation was given |
| `RuleEngine.RuleEngine.Apply` | pkg/collector/rules.go:73-115 | all of a delta or none of it, exactly when it succeeds, and what it reports; a bad delta changes nothing at all, any other asks for the rules `RuleDelta.DeltaMeaning` says and is installed as `Install` says |
| `RuleEngine.RuleEngine.Expire` | pkg/collector/rules.go:118-141 | drops exactly the rules whose expiry has passed as `Install` says, leaves the others as they are, reports each of their ids once and in order, fails only if the kernel does, and keeps a calm state calm; with none expired it only releases the slots past their grace |
| `RuleEngine.RuleEngine.LiveVerdict` | pkg/collector/rules.go:145-219 | in every valid state the live IPv6 trie, and the IPv4 one unless a swap and its restore failed, makes the kernel decide as the active rules say |
| `RuleBooks.SwapsInstall` | pkg/collector/rules.go:190-219 | however the swaps end, and with the books as each exit leaves them, the whole is what an install may do |
| `RuleRuns.InstallRests` | pkg/collector/rules.go:149-256 | whatever becomes of an install before `t` plus the grace period, a slot retired at `t` or later is not written to, not used and not freed by it |
| `RuleRuns.Serve` | pkg/collector/rules.go:73-141 | over every run of deltas and expiry ticks at any times, resting slots rest, the IPv4 trie is left behind by no fewer than two failed calls, and a run in order without a failure disturbs no reader of an earlier trie |
| `RuleRuns.GraceHolds` | pkg/collector/rules.go:27-29 | a slot given up at `t` keeps its body and stays off the free list until its grace is over, whatever operations come in between |
| `RuleRuns.OneFailure` | pkg/collector/rules.go:145-219 | after any run with at most one failed call the kernel decides about every packet as the active rules say |
| `RuleDelta.UpsertsRejects` | pkg/collector/rules.go:88-99 | one bad or repeated rule rejects the delta, and nothing else does |
| `RuleDelta.UpsertsResult` | pkg/collector/rules.go:79-99 | stated ids get the stated rules, all others stay |
| `RuleDelta.DeltaMeaning` | pkg/collector/rules.go:75-99 | a delta is rejected exactly for a rule that does not parse or is stated twice; else every rule stated is active as it parses, and of the others exactly those it does not remove, or none if it replaces all |
| `RuleDelta.RemovedMeaning` | pkg/collector/rules.go:82-106 | the rules reported as removed are those a replacement leaves out, or the active ones an update lists |
| `RuleBooks.RoomByCount` | pkg/collector/rules.go:164-178 | there is room exactly when the slots needed anew, the installed ones and those still in their grace period fit the table |
| `RuleBooks.RoomAfterGrace` | pkg/collector/ebpf/rules.go:13-20 | once no slot is in its grace period there is a slot for every rule of any set that fits |
| `RuleStore.WireIdInjective` | pkg/analyzer/rules.go:23-25 | a wire id names one scope and one id |
| `RuleStore.GatherOthers` | pkg/analyzer/rules.go:58-70 | collects exactly the live rules of the other scopes, with their size |
| `RuleStore.Decide` | pkg/analyzer/rules.go:52-83 | accepts exactly when every new rule parses and, with what is alive elsewhere, fits a collector and the message limit |
| `RuleStore.RuleStore.Replace` | pkg/analyzer/rules.go:52-90 | exact acceptance at any clock reading; only that scope changes; a refused set changes nothing; from the reading of an accepted push on, what is alive fits |
| `RuleStore.RuleStore.Desired` | pkg/analyzer/rules.go:96-123 | at any clock reading drops exactly what has expired and returns exactly the rules that expire more than the margin later, by id; when not enforcing, those of them that pass traffic; they fit if the reading is at most the margin behind the last accepted push |
| `RuleMargin.MarginIsExact` | pkg/analyzer/rules.go:27-31 | in every state of the store what is handed out passes the checks of a collector (no rule expired, RulesMax, RulesPerDst) exactly when the sync's reading is at most the margin behind the last accepted push and the collector's at most the margin ahead of the sync's |
| `RuleMargin.TwoPushesAccepted` | pkg/analyzer/rules.go:52-90 | a store whose rules do not fit together at an earlier reading is reached by two accepted pushes |
| `RuleMargin.TwoPushesTooMany` | pkg/scrubrules/scrubrules.go:71-73 | of these a sync with such a reading sends one rule more than a destination takes |
| `RuleStore.WireSetComplete` | pkg/analyzer/rules.go:138-149 | the wire set holds the pushed rules one for one |
| `RuleStore.PushRules` | pkg/analyzer/rules.go:128-152 | when a push is accepted, exactly, and what the store then holds |
| `RuleState.LoadAccepts` | pkg/analyzer/rules_persist.go:184-187 | if all mixtures of old and loaded scopes fit, no scope is rejected, whichever were added before it |
| `RuleState.AllLoaded` | pkg/analyzer/rules_persist.go:149-190 | then every scope is loaded, in whichever order they are added |
| `RuleState.LexOrderUnique` | pkg/analyzer/rules_persist.go:149-153 | the sorted list of the names is the only one, so what is loaded is a function of file and store |
| `RuleState.Load` | pkg/analyzer/rules_persist.go:116-190 | into any store: which files are refused; the scopes of the file are taken in the order of their names, and each replaces the store's with exactly its loadable rules, or is rejected exactly if these do not fit beside what is there by then; restored rules are counted; from the time of loading on, if anything was loaded, what is alive fits a collector |
| `RuleState.SavedLoads` | pkg/analyzer/rules_persist.go:44-77 | what can be loaded of a saved store is what has not expired, and it fits |
| `RuleState.Restart` | pkg/analyzer/rules_persist.go:206-222 | saving, and loading later into a new store, restores exactly the unexpired rules, which fit a collector from then on |
| `RuleDelivery.RuleSetCommand` | pkg/analyzer/rules.go:254-270 | the command lists the desired set, each rule once, by id; which rules these are is stated by expiry and action (`Switched`) |
| `RuleDelivery.CommandTarget` | pkg/collector/rules.go:75-99 | whatever a collector holds, a command is rejected exactly if one of its rules has expired there; else it asks for exactly the listed rules |
| `RuleDelivery.CommandAccepted` | pkg/collector/rules.go:75-115 | a command listing a set that fits passes Parse, the duplicate check and the capacity check until a rule of it expires |
| `RuleDelivery.Sync` | pkg/collector/rules.go:270-292 | at any two clock readings the collector accepts the command exactly if nothing of it has expired there, it fits, there are slots for it and no kernel call fails; then it holds exactly the wanted rules (those expiring after the margin, only PASS rules when not enforcing), else what it held, and the IPv4 trie is left behind only if the IPv6 swap and the restore failed |
| `RuleDelivery.TakesInTime` | pkg/analyzer/rules.go:27-31 | capacity closure: with the sync at most the margin behind the last push and the collector at most the margin ahead of the sync, acceptance is a matter of counting slots, and certain when none is in its grace period |
| `RuleDelivery.PushedVerdict` | pkg/collector/ebpf/c/protector.bpf.c:1823-1898 | a collector holding the wanted rules drops, passes or limits a packet, at its rate, as the first stated rule that is about the packet says, and consults none exactly when there is none |
| `RuleDelivery.SyncDecides` | pkg/analyzer/rules.go:254-270 | end to end: after an accepted sync the kernel treats every packet as the wanted rules of the analyzer's store state; after a rejected one it goes on treating them as the rules held before, unless the IPv4 trie was left behind |
| `EventRing.EventRing.PushBack` | pkg/analyzer/aidetection/ring.go:32-51 | appends; a full ring loses its oldest event; growing keeps order |
| `EventRing.EventRing.DropFront` | pkg/analyzer/aidetection/ring.go:65-76 | drops exactly the oldest n |
| `CampaignEvents.CampaignEvents.Push` | pkg/analyzer/aidetection/campaign_events.go:28-36 | appends the signal and keeps the high-water and lag invariant for out-of-order arrivals |
| `CampaignEvents.CampaignEvents.TrimTo` | pkg/analyzer/aidetection/campaign_events.go:38-42 | keeps the newest events |
| `CampaignEvents.EarlyStop` | pkg/analyzer/aidetection/campaign_events.go:55-72 | from the stopping point on no event is older than the earliest kept |
| `CampaignEvents.CampaignEvents.ScanExpiredPrefix` | pkg/analyzer/aidetection/campaign_events.go:55-72 | counts the expired events of the prefix and finds its earliest kept one; everything after it is kept |
| `CampaignEvents.CampaignEvents.CompactPrefix` | pkg/analyzer/aidetection/campaign_events.go:74-90 | the backward in-place move keeps the kept events of the prefix in order, followed by the untouched rest |
| `CampaignEvents.CampaignEvents.LatestTimestamp` | pkg/analyzer/aidetection/campaign_events.go:92-105 | the backward scan that stops early finds the true maximum |
| `CampaignEvents.CampaignEvents.PruneBefore` | pkg/analyzer/aidetection/campaign_events.go:44-53 | equals the naive filter, keeping each signal that is not before the cutoff as often as it was there and no other, and returns the true minimum and maximum |
| `CampaignEvents.NaiveOrder` | pkg/analyzer/aidetection/campaign_events.go:74-90 | the filter keeps order: what comes first stays first |
| `RateLimiter.TokenBucket.Allow` | pkg/ratelimit/limiter.go:47-69 | allows a request exactly when the bucket is made for at least one token and holds one, with what accrued; a refusal leaves less than one |
| `RateLimiter.AllowMeaning` | pkg/ratelimit/limiter.go:47-69 | an allowed request takes one token and a refused one none; beyond that only tokens past the capacity are lost |
| `RateLimiter.TokenBucket.SetRate` | pkg/ratelimit/limiter.go:78-96 | settles at the old rate, then switches and clamps |
| `RateLimiter.SetRateMeaning` | pkg/ratelimit/limiter.go:78-96 | a change of rate loses exactly what is past the old capacity, and then what is past the new one |
| `RateLimiter.TokenBound` | pkg/ratelimit/limiter.go:47-96 | in every run of requests and rate changes tokens stay within [0, capacity], and requests allowed plus tokens left are at most the tokens at the start plus rate times time over the rates in force |
| `RateLimiter.TokenLedger` | pkg/ratelimit/limiter.go:47-96 | in every run requests allowed, tokens left and tokens cut off at the capacity add up to the tokens at the start plus rate times time over the rates in force |
| `RateLimiter.AdmittedBounded` | pkg/ratelimit/limiter.go:268-294 | a limiter map never outgrows its cap; `LimiterMap.Valid` carries this through every operation |
| `RateLimiter.AllowKeyMeaning` | pkg/ratelimit/limiter.go:268-294 | a request of a tracked source is answered by its bucket, of any other by a full one; no other bucket changes, and at most one, the oldest sampled, is evicted, only when the map is full and the source new |
| `RateLimiter.AllowDecides` | pkg/ratelimit/limiter.go:326-331 | a request is allowed exactly when there is a token for its address, if it has one, and for its ASN, if that is known; one refused for its address does not touch the ASNs |
| `RateLimiter.OldestIsOldest` | pkg/ratelimit/limiter.go:225-266 | the evicted entry is no more recent than any other sampled |
| `RateLimiter.LimiterMap.EvictOldest` | pkg/ratelimit/limiter.go:225-266 | removes the oldest of a sample of the prescribed size, and nothing else |
| `RateLimiter.LimiterMap.Find` | pkg/ratelimit/limiter.go:275-291 | the lookup under the lock: the bucket of the key, made after an eviction if need be, within the cap |
| `RateLimiter.LimiterMap.Spend` | pkg/ratelimit/limiter.go:293 | the Allow after the lock is given up: allowed exactly when the bucket has a token; a bucket evicted in between answers for itself and no tracked source changes |
| `RateLimiter.LimiterMap.Admit` | pkg/ratelimit/limiter.go:268-294 | lookup and Allow with nothing in between: the new map, and allowed exactly when the bucket of the source, or the full one it gets, has a token |
| `RateLimiter.LimiterMap.Cleanup` | pkg/ratelimit/limiter.go:386-416 | forgets exactly the sources not seen since the cutoff |
| `RateLimiter.LimiterMap.SetRate` | pkg/ratelimit/limiter.go:336-343 | every tracked source changes rate at once, each settled at its old one |
| `ScrubTrust.SignalJudge.CheckRateLimitFor` | pkg/analyzer/scrub_trust.go:42-58 | limited exactly when the limiter that decides exists and has no token for the signal: on a trusted scrub stream the trusted-only one, else the shared one; and what happens to the shared state |
| `ScrubTrust.SignalJudge.HandleSignal` | pkg/analyzer/service.go:1161-1192 | a signal is limited exactly when the limiter of its stream refuses it, and else judged on the score of that stream's reputation, exceeded exactly above the threshold; which reputations are charged for a refusal; with the stream's role read once for the limit and once for the verdict |
| `ScrubTrust.HandleMeaning` | pkg/analyzer/scrub_trust.go:42-93 | the same of the two steps as functions |
| `ScrubTrust.VerdictsAreJudged` | pkg/analyzer/scrub_trust.go:42-93 | under every interleaving of rate limits and reputation verdicts, those on trusted scrub streams are those of a judge that has only the trusted-only state, and sees only what its limiter meets, whom its reputation is asked about, and their upkeep |
| `ScrubTrust.Noninterference` | pkg/analyzer/scrub_trust.go:29-93 | two runs that agree on these give the same (limited, fanout) and (score, exceeded, fanout), whatever other collectors send and whatever the shared limiter, its time and its evictions make of the signals |
| `ScrubTrust.SignalsNoninterference` | pkg/analyzer/service.go:1161-1192 | for whole signals whose stream's role is the same at both reads it is enough that the same signals arrive on trusted scrub streams; which of them the reputation is asked about follows |
| `RuleSync.Coalesced` | pkg/analyzer/rules.go:209-252 | under every interleaving at most one worker per collector, each request in exactly one place and answered at most once, and a success comes from a rule set built after the request |
| `RuleSync.NothingStranded` | pkg/analyzer/service.go:1561-1573 | a waiting request always has somebody who will answer it, also when shutdown refuses the worker; when all are through, every request is answered |
| `RuleSync.AnsweredAsDecided` | pkg/analyzer/rules.go:225-252 | a request is answered what was decided for it and nothing else: the version sent when its batch was sent, a failure when that failed or its worker was refused |
| `FanoutQueue.Accounted` | pkg/analyzer/service.go:1444-1519 | every command is in exactly one of: with its enqueuer, refused late, dropped full, finished, in the worker's hand, queued |
| `FanoutQueue.NothingAfterClose` | pkg/analyzer/service.go:1464-1490 | nothing enters the queue once it is closed, and it stays empty after the closing drain |
| `FanoutQueue.SendsKeepOrder` | pkg/analyzer/service.go:1492-1519 | sends keep enqueue order |
| `FanoutQueue.ReleasedExactly` | pkg/analyzer/service.go:1444-1519 | a reservation is released, once, exactly for a command dropped with the queue full, on a role change or a failed send; never for one that was sent, lost with the stream, or is still on its way |
| `FanoutQueue.EndedWithReason` | pkg/analyzer/service.go:1492-1519 | a command was sent, or failed to be, only after a check that found the peer trusted; it ended on a role change only by a check that found it not trusted, and was lost only once the stream had ended |
| `FanoutQueue.TurnedWithReason` | pkg/analyzer/service.go:1444-1462 | a command is dropped only by an offer to a full queue, accepted only by an offer to one with room, and refused only if it arrives after the queue was closed |
| `FanoutDedup.Refines` | pkg/analyzer/service.go:1357-1398 | the dedup beside all fan-out queues takes part in runs of its own, so its theorems hold there |
| `FanoutDedup.WithheldIsOnItsWay` | pkg/analyzer/service.go:1357-1519 | a registered target is withheld a block only if less than a TTL ago it was sent at once, or a fan-out to it was started that has not been given up |
| `FanoutDedup.FateOfUnreleased` | pkg/analyzer/service.go:1444-1519 | such a fan-out waits at its queue or is in somebody's hand, was sent, was lost with the stream, or its release is under way |
| `FanoutDedup.OnlyFailuresGiveUp` | pkg/analyzer/service.go:1836-1849 | what the dedup releases was a fan-out command dropped with the queue full, on a role change or a failed send, and never one that was sent |
| `FanoutDedup.ReleaseDelivers` | pkg/analyzer/service.go:1490-1491 | once the release under way for a command is through, the next decision within the TTL that targets the registered peer delivers |
| `WatchRing.WatchSubscriber.Push` | pkg/analyzer/watch.go:124-141 | a bounded drop-oldest queue, with pushed = delivered + dropped + held |
| `WatchRing.WatchSubscriber.Pop` | pkg/analyzer/watch.go:143-154 | delivers the oldest held, in publish order |
| `WatchRing.WrapIsMod` | pkg/analyzer/watch.go:124-154 | the index arithmetic of the ring is taken modulo its length |
| `WatchRing.NoLostWakeUp` | pkg/analyzer/watch.go:96-111 | a waiting reader with decisions held has a wake-up token, or a publisher about to place one |
| `WatchRing.Wakes` | pkg/analyzer/watch.go:192-206 | and then it wakes, and sends the oldest decision held |
| `FloodRate.PrevRates.ComputePPS` | pkg/collector/service.go:1669-1676 | the rate and the remembered sample |
| `FloodRate.PrevRates.FloodPPS` | pkg/collector/service.go:1713-1734 | the flood verdict, and what is remembered or forgotten |
| `FloodRate.PruningInvisible` | pkg/collector/service.go:1721-1734 | over every run of polls the verdicts, and the rate of each flood, are those of a collector that stores every sample |
| `FloodRate.JudgedByWindow` | pkg/collector/service.go:1778-1790 | in any run the verdict on a source follows from its two latest samples: its own count, or that of the flood before when the window has rolled; a stale sample is no flood |
| `FloodRate.JudgedFirst` | pkg/collector/service.go:1713-1716 | the verdict on a source polled for the first time |
| `Fingerprints.NextAlternates` | pkg/collector/fingerprint.go:60-68 | the next generation is never 0 and always selects the other map, also across the wrap |
| `Fingerprints.DoubleBuffer` | pkg/collector/fingerprint.go:70-101 | across flips, partial drains and failed switches a map is drained only while XDP writes to the other one, and every packet counted is returned, in a map or on its way to one |
| `Fingerprints.FlipReturns` | pkg/collector/fingerprint.go:72-101 | a switch that succeeds turns XDP to the other map, and a flip that completes returns exactly what the old map held and what was on its way to it, whatever XDP does meanwhile, and leaves it empty |
| `Fingerprints.LeftOverReturned` | pkg/collector/fingerprint.go:76-88 | what a failed drain left is returned by the next flip, and nothing is added to it in between |

## Left out

- Parse: error texts, and the parsing of prefix strings; `None` stands for a string that does not parse.
- RuleStore.Decide: the store takes what Parse makes of a rule as a parameter; `RuleDelivery` puts the modelled Parse in its place.
- RuleState.Load: JSON, file access, fsync and rename are not modelled; a document is what decoding produced, and a saved store is assumed to stay within the size limit of the file.
- RuleEngine.RuleEngine.Install: what readers of an IPv4 trie left behind meet once a later install replaces it is not stated.
- Of a rate-limit bucket only when it is reset is modelled, not what it holds; hit counters are not.
- ScrubTrust.Noninterference: a trusted stream is assumed to have the trusted-only limiter, which start-up creates whenever streams can be trusted (pkg/analyzer/service.go:523); the reputation engines are abstract deterministic machines with penalise, score and upkeep; the limiters are values there, tied to the in-place maps by `RateLimiter.LimiterMap`.
- RateLimiter.TokenBound: float64 rounding is not modelled, and the bound is per bucket: a source evicted and seen again starts with a full bucket.
- CampaignEvents.CampaignEvents.Push: the saturation of Go durations beyond 292 years is not modelled.
- Fingerprints.DoubleBuffer: a drain is assumed to delete what it returns, the settle time to outlast packets on the way, and fingerprint maps not to overflow; the counts are per bucket and in packets.
- BlockTable.RecentBlocks.ReserveBlockExcept: Go's zero time is 0 and reservations happen at other times.
- FanoutDedup.WithheldIsOnItsWay: a block sent at once is taken as sent; sendToStream only logs a failure and releases nothing, as in the code.
- RuleSync, FanoutQueue, FanoutDedup, Fingerprints and the wake-up part of WatchRing are step machines over values; the locks of the code are the granularity of their steps.
- Dedup applies to BLOCK_IP commands only; other commands pass through unmodelled, as do metrics and log lines.
- Which fingerprint buckets and destinations are reported (selectTopFingerprints), and which addresses count as recent trusted evidence (evidenceSet).
- The size caps of the collector's per-source state (pruneStaleState) appear only as arbitrary forgetting in `FloodRate`.
- gRPC, TLS, certificate handling, the CLI and TUI, GeoIP, ML scoring, HTTP heuristics, and XDP beyond the rule matcher.
