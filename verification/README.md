# A peer-to-peer chat room, in Dafny

The program is a serverless group chat. Every node keeps a replicated ledger of signed messages ordered by
vector clocks, guards itself with a topic validator and a per-peer trust tracker, repairs late joiners from
the ledgers of others, shows the messages in a browser list, and feeds them to an AI persona through a
batcher. This project models those parts and proves what they promise over whole runs.

The model keeps the source's form: the ledger, vector clock, trust tracker, validator, node, browser list and
batcher are classes or methods that change their fields step by step, each proved against a function or
relation of the old state; the comparators and guards are functions. Runs, reachable states and the network
are built on those functions, and the main theorems quantify over every run.

## How it fits together

- `Strings`, `Orders`, `Sorting`, `Arrangements`: byte order on strings, strict orders on lists, Go's stable sort,
  and when lists grown by insertion do not depend on the order of arrival.
- `VectorClocks`, `Messages`, `MessageOrder`, `Comparators`: clocks, messages, and the three comparators.
- `Ledger`, `LedgerInvariant`, `LedgerRuns`, `LedgerAccount`, `LedgerRepair`, `LedgerOrder`, `LedgerTop`: one
  ledger, every run of it and what its counters mean, repair, and when its order is deterministic, with eviction
  and without.
- `Trust`, `RateLimit`, `Validator`, `Gate`, `ValidatorRuns`: token buckets, quarantine, the validator.
- `Nodes`, `Protocol`, `ProtocolSafety`, `ProtocolLists`, `Causality`, `ForeignRuns`, `Agreement`,
  `Disagreement`, `HonestRepair`: the node's methods, and the whole room as a transition system with honest
  nodes, foreign peers and a network that loses, repeats and reorders.
- `ChatView`, `History`, `Batcher`, `Mentions`: the browser list, the AI history and batcher, the word search.

## Main results

- *Nothing forged, repeated or reordered.* In every run, what an honest node accepts from an honest sender is
  a subsequence of that sender's log (`ProtocolSafety.AcceptedIsSubsequenceOfSent`); an honest message is
  never called a fork, and the exact condition for refusing it is given (`WhyHonestIsRefused`).
- *Clocks tell causality.* With honest keys only, `Before` means happened-before, both ways
  (`Causality.ClocksDecideHappenedBefore`); with foreign signers a cause is still never shown as later or
  concurrent (`ForeignRuns.CausesAreNeverAfter`).
- *Exactly when the promised order is deterministic.* The program's README promises one deterministic order for
  UI and AI history (README.md:141-148). The comparator can go round, and there is a run of honest nodes only at
  whose end two of them have accepted the same messages and show different lists
  (`Disagreement.HonestNodesDisagree`). The exact condition is an equivalence for the browser
  (`ChatView.ListIsDeterministicIff`), the AI history (`History.HistoryIsDeterministicIff`) and the ledger
  (`LedgerOrder.OrderIsDeterministicIff`, `Agreement.AgreementIff`): no message lies across a causal pair, tied
  with both but sorted after the later and before the earlier. A ledger that evicts only needs it of the messages
  it can hold (`LedgerTop.SmallIsDeterministicIff`). The same condition decides whether the browser always shows
  causes above effects (`ChatView.ListIsCausalIff`). Beyond twenty messages Go's sort is known by its contract
  only: there the equivalences for ledger and history say that the contract does not exclude another list, not
  that Go gives one.
- *Agreement.* Without such a message, and always with two speakers, nodes that accepted the same messages hold
  the same list, evictions included, in runs with foreign signers too (`Agreement.SameAcceptedAgree`).
- *Exactly once, and final.* Delivery in sender order accepts each message once for any duplication,
  interleaving and ledger size; a message once offered is never accepted again, even after eviction.
- *Repair.* A node takes a message of an answer exactly when it has accepted nothing as late of its sender, live or
  otherwise, and nothing as late stands before it in the answer (`LedgerRepair.TakenIff`). The program relays live
  messages 1.5 seconds before it asks (cmd/main.go:921-925, 1034-1039), so a late joiner that hears one message of
  a sender first never recovers that sender's earlier ones (`LiveMessageLeavesGap`, `GapIsNeverRepaired`). Between
  nodes of an honest run that is the only obstacle (`HonestRepair.HonestRepairIff`). What list a repair ends with
  is decided exactly too (`LedgerOrder.RepairKeepsListIff`).
- *Rate limit and accounting.* A peer is never refused exactly when every run of its calls fits
  12 + 8 per second; every refusal, at the validator on every branch or at the read loop's second check, adds
  exactly one reject; quarantine is exactly the third reject and is for ever.
- *Who is heard.* An envelope is accepted exactly under a condition stated for every kind
  (`Validator.EnvelopeAcceptedIff`); a peer that forwards its own proper envelopes and keeps to the rate is never
  refused, charged or quarantined (`ValidatorRuns.HonestIsNeverCharged`).
- *Every counter of a ledger* is the number of calls of its kind, each kind told without the guards
  (`LedgerAccount.OfferExplained`, `CountersMean`).
- *The batcher* loses, repeats and reorders nothing on the way into batches, drains by whole fifteens unless flushed,
  and delivers in drain order exactly when each callback takes the batch that waited longest, or one equal to it.
- *The whole-word search* answers right on every text exactly when the name does not shadow itself; the
  comment on the function (internal/ai/orchestrator.go:1007) promises it for all names.

## Model

| member | source | states |
|---|---|---|
| VectorClocks.CompareMeaning | internal/clock/vector.go:54-87 | the four answers of Compare are exactly the four relations of the pointwise order, missing entries counting zero |
| VectorClocks.PrecedesIsStrictOrder | internal/clock/vector.go:60-87 | Before is irreflexive and transitive, and is After seen from the other side |
| VectorClocks.CompareClocks | internal/clock/vector.go:60-87 | the two passes with two flags give that comparison |
| VectorClocks.Check | internal/clock/vector.go:63-73 | one pass sets each flag exactly when some key of that map witnesses it |
| VectorClocks.MergedIsLeastUpperBound | internal/clock/vector.go:33-41 | a merged clock is the entry-wise maximum, and the least clock above both |
| VectorClocks.VectorClock.Increment | internal/clock/vector.go:26-30 | raises the one entry by one and no other |
| VectorClocks.VectorClock.Merge | internal/clock/vector.go:33-41 | the loop ends with the merged clock; a zero remote entry adds no key |
| VectorClocks.VectorClock.Snapshot | internal/clock/vector.go:44-52 | a copy equal to the clock, which stays unchanged |
| MessageOrder.CompareMessagesFlips | internal/chat/ledger.go:237-257 | the ledger's comparator is antisymmetric, and never equal on different IDs |
| MessageOrder.OrderMeaning | README.md:141-148 | a message is below another exactly when it causally precedes it, or neither precedes the other and its sender, ID, lowered name and content come first in dictionary order |
| Strings.CompareMeaning | internal/chat/ledger.go:246-256 | dictionary order: a proper beginning, or the smaller character at the first difference |
| MessageOrder.TransitiveIff | internal/chat/ledger.go:237-257 | on any set of messages with distinct IDs the order is transitive exactly when there is no inversion: a before b, and a third message tied with both but sorted after b and before a |
| MessageOrder.CycleHasInversion | internal/chat/ledger.go:237-252 | every three-cycle of the order contains an inversion |
| MessageOrder.TwoSendersAreOrdered | internal/chat/ledger.go:231-257 | messages of at most two senders, each a causal chain, are totally and transitively ordered |
| MessageOrder.ThreeSendersCanCycle | internal/chat/ledger.go:237-252 | the bound is tight: any three senders have three messages a < b < c < a with every sender a chain |
| Comparators.CompareVectorClock | internal/ai/orchestrator.go:814-844 | the loop over the union of the keys gives -1, 1 or 0 as Compare does, and 0 if a clock is empty |
| Comparators.ClockPartsAgreeIff | internal/ai/orchestrator.go:814-844 | ledger and AI history read two clocks alike exactly when neither is empty or both count nothing; the browser always reads them as the AI history does |
| Comparators.HistoryFollowsLedger | internal/ai/orchestrator.go:798-812 | on messages with an own clock and different IDs the AI history has the ledger's order, antisymmetric and total |
| History.Orchestrator.AddToHistory | internal/ai/orchestrator.go:96-101 | one message goes in: sorted, cut to the last thirty |
| History.Orchestrator.Observe | internal/ai/orchestrator.go:195-213 | a batch goes in without the persona's own messages, which are counted out; nothing once stopped |
| History.OthersMeaning | internal/ai/orchestrator.go:203-210 | the filter keeps just the messages of other names, each as often as it came, in their order |
| History.Orchestrator.CompactHistory | internal/ai/orchestrator.go:718-723 | the history sorted, less all but its last thirty |
| History.HistoryIsInsertionSort | internal/ai/orchestrator.go:718-723 | up to twenty messages the history is the insertion sort of all batches one after the other, though the comparator may cycle |
| History.NoInversionOneHistory | README.md:141-148 | without an inversion every order of arrival and division into batches ends with one history, cut or not |
| History.HistoryIsDeterministicIff | README.md:141-148 | up to thirty messages the AI history is the same for every order of arrival and division into batches exactly when there is no inversion |
| Comparators.BrowserOrderFlips | web/app.js:722-732 | for any collation the browser's comparator is antisymmetric, never equal where the collation tells the IDs apart, and keeps causal order |
| Comparators.AtMostThrough | web/app.js:722-732 | "at most" is transitive on any three messages none of which lies across a causal pair of the others |
| Sorting.InsertionSortInPlace | internal/chat/ledger.go:231-235 | the swapping loop of the stable sort leaves the insertion sort of the array |
| Sorting.InsertionSortIsPermutation | internal/chat/ledger.go:231-235 | sorting loses and repeats nothing, whatever the comparator |
| Sorting.InsertionSortIncreasing | internal/chat/ledger.go:231-235 | the result is in order where the comparator is transitive and total on the messages present |
| Sorting.SortSlice | internal/chat/ledger.go:231-235 | an outcome that sort.SliceStable may have |
| Ledger.Ledger.constructor | internal/chat/ledger.go:44-55 | a fresh ledger; a limit that is not positive becomes 200 |
| Ledger.Ledger.AddWithReason | internal/chat/ledger.go:62-108 | the verdict, the reason and the whole new state: dedupe, clock guard, fork guard, then insert, sort, evict and count |
| LedgerAccount.OfferExplained | internal/chat/ledger.go:62-108 | every offer of every run, told without the guards: an ID held is a duplicate and leaves no other trace, not even in rejects or the last reason; else a clock no later than one accepted of the sender is a regression; else a sender and previous hash accepted under another ID is a fork; and all others are accepted |
| LedgerAccount.CountersMean | internal/chat/ledger.go:69-107 | verified, duplicate, clock regressions, forks and rejects are each the number of calls of that kind, and of no other |
| Ledger.Ledger.Append | internal/chat/ledger.go:90-107 | accepting: both guards move, the sorted list loses its front surplus, and the IDs of what is lost go with it |
| Ledger.Ledger.Add | internal/chat/ledger.go:57-60 | the same, without the reason |
| Ledger.Ledger.IDs | internal/chat/ledger.go:117-126 | exactly the held IDs, each once, in dictionary order |
| Ledger.Ledger.GetRecent | internal/chat/ledger.go:128-140 | the last messages up to the limit, all of them if it is not positive or too large |
| Ledger.Ledger.GetMissingFrom | internal/chat/ledger.go:142-155 | of those, the ones whose ID is not known, in list order |
| LedgerRepair.AnswerHoldsIff | internal/chat/ledger.go:128-155 | a held message is in an answer exactly when its ID is not known and fewer than the limit stand behind it |
| LedgerRepair.AnswerKeepsPlaces | internal/chat/ledger.go:142-155 | an answer holds nothing else, in the order of the list |
| LedgerRepair.LeftOutIsBelow | internal/chat/ledger.go:128-140 | where the order is total, whatever was accepted and is left out for its age is below all that the limit keeps |
| Ledger.WithoutMeaning | internal/chat/ledger.go:142-155 | that filter drops exactly the known IDs, and nothing when none is known |
| Ledger.Ledger.MarkRejectedReason | internal/chat/ledger.go:163-171 | counts a reject and notes its reason, `rejected` if there is none |
| Ledger.Ledger.AddRepaired | internal/chat/ledger.go:173-180 | adds positive counts only |
| Ledger.Ledger.SetSyncStatus | internal/chat/ledger.go:182-189 | sets the status, `idle` if empty |
| Ledger.Ledger.GetStats | internal/chat/ledger.go:191-216 | all counters as they are, and per peer the greatest clock entry of any held message |
| LedgerInvariant.OfferKeepsInv | internal/chat/ledger.go:62-108 | one call keeps the invariant: distinct IDs, IDs are those of the list, size min(accepted, max), clock guard and fork table exact, and where the order is total the list is sorted and holds the greatest of all accepted messages |
| LedgerInvariant.OfferKeepsShort | internal/chat/ledger.go:97-105 | one call keeps a small ledger steady, equal to the insertion sort of what it accepted while nothing is evicted, and in its senders' clock order where they are causal chains |
| LedgerInvariant.EvictedMeansFull | internal/chat/ledger.go:97-103 | an accepted message is missing only from a full list |
| LedgerRuns.RunKeepsInv | internal/chat/ledger.go:62-108 | the invariant holds in every reachable ledger |
| LedgerRuns.ReachableLedger | internal/chat/ledger.go:62-108 | the shape of every reachable ledger, with offers that carry an ID = verified + duplicate + clock regressions + forks |
| LedgerRuns.EveryOfferIsCounted | internal/chat/ledger.go:62-108 | each such offer is counted exactly once under its verdict |
| LedgerRuns.GuardsOnlyGrow | internal/chat/ledger.go:75-96 | over any stretch of a run clocks only rise and no (sender, previous hash) key changes its ID |
| LedgerRuns.Finality | internal/chat/ledger.go:69-105 | if IDs fix the sender and a positive clock, a message once offered, accepted or not, is never accepted later, even after eviction |
| LedgerRuns.AcceptedAgainIff | internal/chat/ledger.go:69-105 | an accepted message is acceptable again exactly when it has no own clock and its ID was evicted |
| LedgerRuns.ForkKeyIsInjective | internal/chat/ledger.go:82-93 | the string key separates sender and hash when senders contain no separator |
| LedgerRuns.InOrderIsAcceptedOnce | internal/chat/ledger.go:62-108 | honest messages delivered in each sender's order are accepted at their first offer and at no other, for any duplication, interleaving and size |
| LedgerRuns.AllOfferedAreAccepted | internal/chat/ledger.go:62-108 | then the accepted messages are exactly the offered ones |
| LedgerRuns.SameAcceptedSameList | internal/chat/ledger.go:97-105 | two ledgers of one size that accepted the same messages, totally ordered, hold the same list whatever was evicted when |
| LedgerRuns.InOrderConvergence | internal/chat/ledger.go:62-108 | two nodes that receive the same honest messages in sender order, otherwise arbitrarily, end with the same list when there is no inversion |
| LedgerRepair.TakenIff | cmd/main.go:966-975 | message by message: one of an answer is repaired exactly when nothing as late of its sender was accepted before, live or otherwise, or stands before it in the answer |
| LedgerRepair.RepairsAreFitting | cmd/main.go:966-975 | so the repairs are exactly those messages, in the order of the answer |
| LedgerRepair.RepairIsCompleteIff | cmd/main.go:960-980 | whatever a ledger has accepted and whatever IDs it names as known, it takes every message of the answer exactly when each sender's stand in clock order in it, all later than what was accepted of that sender, and none uses a link known under another ID |
| LedgerRepair.BlankRepairIsCompleteIff | cmd/main.go:960-980 | for a ledger that has accepted nothing the clock order alone decides |
| LedgerRepair.GapIsNeverRepaired | internal/chat/ledger.go:75-81 | a message as early as one accepted of its sender is refused for ever, so a gap is never repaired |
| LedgerRepair.LiveMessageLeavesGap | cmd/main.go:921-925 | the failing input: a joiner that hears any sender's later message live before the answer arrives refuses the earlier one, which it has never seen |
| LedgerRepair.RepairRestores | cmd/main.go:960-980 | after a complete repair the ledger has accepted what it had and the answer, holds all of it if it has room, and shows the list of every ledger of its size that accepted the same where the order is total |
| LedgerRepair.BlankRepairRestores | cmd/main.go:960-980 | a ledger that had accepted nothing then holds exactly the answer, as the same list where the order is total |
| LedgerRepair.ChainsStandInOrder | internal/chat/ledger.go:128-155 | with senders that are causal chains a list stands in clock order if its order is total, or if its ledger is small, cycles or not |
| LedgerOrder.ShortListsInsert | internal/chat/ledger.go:97-105 | up to twenty messages and the ledger's size, appending and sorting again is one plain insertion |
| LedgerOrder.ListIsInsertionSort | internal/chat/ledger.go:97-105 | then the list is the insertion sort of the accepted messages in order of acceptance, though the comparator may cycle |
| LedgerOrder.InversionDiverges | internal/chat/ledger.go:231-257 | any inversion among honest messages, wherever in their logs, makes two in-order runs end with different lists |
| LedgerOrder.OrderIsDeterministicIff | README.md:141-148 | ledgers with room for a set of honest messages end with one list, for every interleaving and repetition that keeps each sender's order, exactly when the set holds no inversion |
| LedgerOrder.EverySizeIsDeterministicIff | README.md:141-148 | for ledgers of all sizes, evicting or not, the condition is the same |
| LedgerTop.EarlierGoesFirst | internal/chat/ledger.go:97-105 | of two arrivals of which the later is not below the earlier, the earlier is evicted first, and till then stands in front |
| LedgerTop.TopIsShown | internal/chat/ledger.go:97-105 | messages that are above all others, free of inversions and as many as fit are what is shown in the end, in their order, for every delivery |
| LedgerTop.SmallIsDeterministicIff | README.md:141-148 | a ledger that evicts, of less than twenty messages, ends with one list for every sender-ordered delivery exactly when there is such a top set; inversions below it do not matter |
| LedgerOrder.OrderIsNotDeterministic | README.md:141-148 | the promised deterministic total order fails for any three senders: two fresh ledgers, the same three honest messages, two lists |
| LedgerOrder.ShortLedgersAreSteady | internal/chat/ledger.go:97-105 | up to twenty messages neighbours are in order in every reachable ledger, and causal chains in clock order, after any evictions and though the comparator may cycle |
| Arrangements.GrowsIntoIff | internal/chat/ledger.go:231-235 | inserting into a part of a list what it lacks gives the list exactly when the part has its order and each missing element is not below its neighbour and below all of the part behind it |
| LedgerOrder.RepairKeepsListIff | cmd/main.go:960-980 | exactly when a complete repair of a receiver that already holds messages gives it the very list of the answerer, up to twenty messages, total order or not |
| LedgerOrder.BlankRepairKeepsListIff | cmd/main.go:960-980 | for a receiver that had accepted nothing: exactly when neighbours are in order in the list |
| LedgerOrder.ShortRepairKeepsList | cmd/main.go:960-980 | so with causal chains such a joiner sees just what a small ledger shows, even where the order goes round |
| Nodes.Node.Sign | cmd/main.go:199-208 | the next message has the given ID, name, content, mentions and flags, the raised snapshot and the last hash, each in its own field, is signed over all of them, and its hash becomes the next link |
| Nodes.Node.SignAndPublish | cmd/main.go:199-217 | counter and link move even if publishing fails; if it succeeds the message sent has just the given ID, name, content, mentions and flags, each in its own field, with a signature over them, and the own ledger is offered it |
| Messages.PayloadMeaning | internal/types/message.go:44-67 | two messages sign and hash alike exactly when every field but the signature is the same |
| Nodes.AnythingCanBeSaid | cmd/main.go:200-206 | a sending node can finish with any name, content, mentions and flags |
| Nodes.Node.AcceptMessage | cmd/main.go:357-383 | the ledger decides; a refusal other than a duplicate is noted; the clock is merged on acceptance only |
| Nodes.Node.RequestSync | cmd/main.go:482-483 | a request names exactly the held IDs |
| Nodes.Node.AnswerSync | cmd/main.go:960-963 | an answer is what the requester lacks of the last 80: a held message with an unknown ID and fewer than 80 behind it, and no other |
| Nodes.Node.ApplySyncResponse | cmd/main.go:966-984 | the response is a stretch of a ledger run, message by message; the reported repairs are the acceptances in it, the status says so, and the clock takes in just the accepted messages |
| Nodes.MergedAllIsLeast | cmd/main.go:381-383 | taking in messages one by one gives the least clock above the old one and theirs |
| Nodes.SignIsASend | cmd/main.go:199-208 | what signing promises is the two send steps of the protocol |
| Nodes.AcceptIsADelivery | cmd/main.go:348-383 | what accepting promises is a delivery of the protocol, followed by a merge if accepted |
| Nodes.JoinerCatchesUp | cmd/main.go:946-984 | a node that has accepted anything and names any known IDs reports just the messages that fit as repairs, all of the answer exactly under the condition of RepairIsCompleteIff, and then holds both, as the same list where the order is total and the answerer has accepted no more |
| Nodes.ReapplyingRepairsNothing | cmd/main.go:966-984 | a sync response whose messages have all been offered before, by it or otherwise, repairs nothing, evicted or not |
| RateLimit.TokensAreLeastHeadroom | internal/p2p/trust.go:87-122 | the tokens are the least, over all stretches of calls ending now, of 12 + 8 per second less what the stretch was granted |
| RateLimit.StretchBound | internal/p2p/trust.go:87-122 | no stretch of calls is granted more than 12 + 8 per second |
| RateLimit.AllAdmittedIffConforms | internal/p2p/trust.go:87-122 | one peer's schedule is admitted in full exactly when every contiguous run fits its allowance |
| RateLimit.NeverRefusedIffConforms | internal/p2p/trust.go:87-122 | the same with any other peers' calls in between |
| RateLimit.BucketIsPrivate | internal/p2p/trust.go:87-122 | a peer's bucket depends on its own calls only |
| Trust.TrustTracker.RecordReject | internal/p2p/trust.go:49-64 | one more reject against the peer, quarantine from the third on, and the last reason |
| Trust.RejectMeaning | internal/p2p/trust.go:49-64 | a reject adds one to the peer named, to `unknown` if none is, quarantines it from the third on, and touches no other count, bucket or counter |
| Trust.RateMeaning | internal/p2p/trust.go:87-122 | an admitted call changes the peer's bucket alone; a refused one also counts one reject and one flood against it |
| Trust.TrustTracker.AllowRate | internal/p2p/trust.go:87-122 | refill, cap, draw or refuse; a refusal also counts as a reject and can quarantine |
| Trust.TrustTracker.TotalInvalid | internal/p2p/trust.go:124-130 | the loop sums all counts |
| Trust.ChargedKeepsQuarantine | internal/p2p/trust.go:58-63 | a reject keeps quarantine equal to three rejects or more, and releases nobody |
| Gate.ValidateEnvelopeData | internal/p2p/validate.go:17-116 | the early returns, error and tracker, of every branch, with or without a tracker |
| Gate.ValidateSignedMessage | internal/p2p/validate.go:118-159 | the checks of one message in their order |
| Gate.RecordValidationReject | internal/p2p/validate.go:161-172 | a reject is held against the forwarder if known, else the sender, else `unknown` |
| Gate.ValidateSyncMessages | internal/p2p/validate.go:88-97 | the loop stops at the first message that fails |
| Gate.FilterVerified | internal/p2p/pubsub.go:271-281 | the in-place filter leaves the survivors of a second check, in order, and charges the rest |
| Gate.SurvivorsAreSigned | internal/p2p/pubsub.go:271-281 | survivors are messages of the list, well signed, of senders not in quarantine |
| Gate.AllSurviveIff | internal/p2p/pubsub.go:271-281 | on messages that passed the first check nothing is dropped or charged exactly when no sender is in quarantine |
| Validator.MessageAcceptedIff | internal/p2p/validate.go:118-159 | a message passes exactly when it is complete, small enough, clocked, signed by its sender, and the sender is not in quarantine |
| Validator.AllAcceptedIff | internal/p2p/validate.go:88-97 | a sync response passes exactly when each of its messages does |
| Validator.AcceptedIsSound | internal/p2p/validate.go:35-115 | an accepted envelope carries only well-signed messages and speaks for no quarantined peer |
| Validator.EnvelopeAcceptedIff | internal/p2p/validate.go:17-159 | exactly when an envelope of any kind is accepted, with a tracker or without: legal size; a control whole, of its forwarder if known, admitted and not in quarantine; each message well signed and its sender not in quarantine; a chat admitted; and then nobody is charged |
| Validator.WhyMessageIsRefused | internal/p2p/validate.go:118-159 | each reason for refusing a message is given exactly under its condition |
| Validator.WhyControlIsRefused | internal/p2p/validate.go:35-87 | the same for the checks that both sync kinds share |
| Validator.WhyEnvelopeIsRefused | internal/p2p/validate.go:17-114 | the same for size, undecodable bodies, and flooding by chats |
| Validator.EnvelopeChargesOnce | internal/p2p/validate.go:17-172 | on every branch an error adds exactly one reject, to the forwarder if known and to nobody else, and acceptance adds none; the flood counter moves exactly on rate_limited |
| ValidatorRuns.ReachableTracker | internal/p2p/trust.go:49-130 | over any history of envelopes and rechecked messages total rejects equal the errors of both checks, the flood counter equals the rate_limited errors, and quarantine is exactly three rejects |
| ValidatorRuns.QuarantineLasts | internal/p2p/trust.go:58-63 | nobody leaves quarantine |
| ValidatorRuns.QuarantinedIsSilenced | internal/p2p/validate.go:61-134 | from its third reject on nothing that speaks for a peer passes either check: no chat, no sync control, no response that embeds its messages, no rechecked message |
| ValidatorRuns.FilterIsPlayed | internal/p2p/pubsub.go:271-281 | the read loop's filter is a stretch of rechecks on the same tracker |
| ValidatorRuns.ForwarderPays | internal/p2p/validate.go:161-172 | every refused envelope counts against its forwarder, whoever wrote it, and three quarantine it |
| ValidatorRuns.WindowBound | internal/p2p/validate.go:35-115 | in any window of T seconds at most 12 + 8 T envelopes of a known forwarder, activity aside, are accepted, whatever else is checked at whatever times |
| ValidatorRuns.ConformingIsNeverRefused | internal/p2p/validate.go:17-159 | a forwarder of proper envelopes that speak for nobody in quarantine is never refused while its draws fit 12 + 8 per second, whatever others do |
| ValidatorRuns.NeverRefusedIffDrawsConform | internal/p2p/validate.go:17-159 | and where only its own envelopes draw on its bucket, exactly then |
| ValidatorRuns.HonestIsNeverCharged | internal/p2p/trust.go:49-122 | a peer that forwards its own proper envelopes at that rate is never refused, charged or quarantined, whatever other known forwarders do |
| Protocol.RunIsSafe | cmd/main.go:199-208 | in every state of every run honest logs are linked, rising and signed, only honest nodes' own sends bear their signature, and every ledger keeps its invariant |
| ProtocolSafety.AcceptedIsSubsequenceOfSent | internal/chat/ledger.go:62-108 | what an honest node accepted from an honest sender is a subsequence of the sender's log, in every run with foreign peers and a lossy, duplicating, reordering network |
| ProtocolSafety.HonestIsNeverAFork | internal/chat/ledger.go:82-93 | no honest message is called a fork at any honest node |
| ProtocolSafety.WhyHonestIsRefused | internal/chat/ledger.go:69-93 | an honest message is accepted exactly when its ID is not held and no message of its sender as late or later was accepted |
| Causality.ClocksDecideHappenedBefore | internal/clock/vector.go:26-87 | with honest keys only, Compare says Before exactly for happened-before, and Equal exactly for one and the same message |
| ForeignRuns.CausesAreNeverAfter | internal/clock/vector.go:26-87 | with foreign signers one half survives: what happened before an honest send is never After it or Concurrent with it |
| Causality.OwnEntryIsPlace | cmd/main.go:200-203 | a message's own entry is its place in the sender's log |
| Causality.HappenedTransitive | cmd/main.go:381-383 | happened-before, built from sends and merges, is transitive |
| Agreement.SignedIdsDiffer | internal/types/message.go:25-41 | fresh IDs keep signed messages apart over whole runs |
| Agreement.AcceptedAreChains | internal/clock/vector.go:60-87 | with honest keys only each sender's accepted messages are a causal chain |
| Agreement.SameAcceptedAgree | README.md:141-148 | in every run, foreign signers included, nodes of one ledger size that accepted the same messages, no two under one ID, hold the same list, unless an inversion is among them |
| Agreement.HonestAgreement | README.md:141-148 | with honest keys only, nodes of one ledger size that accepted the same messages hold the same list, unless an inversion is among them |
| Agreement.AgreementIff | README.md:141-148 | what a node of an honest run accepted makes one list in every ledger with room for it, in whatever sender-ordered interleaving, exactly when no inversion is among it |
| Disagreement.HonestNodesDisagree | README.md:141-148 | with any three peers there is a run of honest nodes only, with ledgers of the default size, at whose end two nodes have accepted the same messages and show different lists |
| ProtocolLists.RunIsShort | internal/chat/ledger.go:97-105 | in every run the small ledgers of honest nodes keep neighbours in order and causal chains in clock order |
| HonestRepair.HonestRepairIff | cmd/main.go:471-499 | between two nodes of an honest run a repair is complete exactly when the joiner had accepted nothing of a sender as late as a message it lacks, whatever it heard live and says it knows |
| HonestRepair.HonestShortRepairKeepsList | cmd/main.go:960-980 | a joiner that has heard nothing sees just what a small ledger of an honest run shows |
| Agreement.TwoSpeakersAgree | README.md:141-148 | while only two people have spoken the promised order holds outright |
| ChatView.View.InsertChat | web/app.js:741-747 | the backward scan and splice, repeats ignored, give the insertion of the message |
| ChatView.DroppedIff | web/app.js:740 | an arrival is dropped exactly when it carries an ID already shown; else it adds itself and nothing is lost |
| ChatView.NeighboursStayInOrder | web/app.js:741-747 | for any arrivals and any collation neighbours are in order, though the comparator may cycle |
| ChatView.NeverBeforePredecessor | web/app.js:741-747 | a message is never put before a causal predecessor already shown |
| ChatView.CausalDeliveryIsShownCausally | web/app.js:734-747 | causal delivery is shown as a linear extension of causal order |
| ChatView.LateOpeningIsShownLate | web/app.js:734-747 | without causal delivery it can fail: an answer can stay above the message it answers |
| ChatView.ShownIsSorted | web/app.js:734-747 | for any arrivals, repeated at will, the list holds each message once and is the insertion sort of the first arrivals |
| ChatView.ListIsDeterministicIff | README.md:141-148 | the browser shows one list for every order of arrival and repetition exactly when the collation tells the messages apart and no message lies across a causal pair |
| ChatView.ListIsCausalIff | web/app.js:734-747 | the browser shows causes above effects for every order of arrival exactly when no message lies across a causal pair |
| ChatView.DeterministicIffCausal | web/app.js:734-747 | so with IDs told apart the list is deterministic exactly when it is always causal |
| Arrangements.DeterminedIff | web/app.js:741-747 | insertion from the end gives one list for all orders of arrival exactly where the comparator is a total order |
| Batcher.Batcher.Add | internal/ai/batcher.go:61-88 | buffer, first message arms the long timer, each message re-arms the short one, the fifteenth drains; nothing after Stop |
| Batcher.Batcher.ForceFlush | internal/ai/batcher.go:92-97 | drains even an empty buffer, and also after Stop |
| Batcher.Batcher.DoFlushLocked | internal/ai/batcher.go:109-114 | a timer's flush drains only a buffer that holds something |
| Batcher.Batcher.Drain | internal/ai/batcher.go:117-130 | hands out the buffer, clears it and both timers |
| Batcher.Batcher.Stop | internal/ai/batcher.go:45-58 | discards the buffer and both timers for good |
| Batcher.PlayConserves | internal/ai/batcher.go:45-130 | under every interleaving accepted messages are the drained batches in drain order, then what Stop discarded, then the buffer; batches hold at most fifteen |
| Batcher.AddDrainsFifteen | internal/ai/batcher.go:61-88 | in every reachable state an added message waits, unless it is the fifteenth; then exactly those fifteen go out |
| Batcher.QuietStepsByFifteens | internal/ai/batcher.go:61-88 | without flush or Stop any number of messages goes out in whole fifteens, in order, and the rest stays buffered |
| Batcher.FewMessagesWait | internal/ai/batcher.go:81-83 | fewer than fifteen stay buffered, and nothing is drained |
| Batcher.FlushesDrain | internal/ai/batcher.go:92-106 | a forced flush hands out the buffer even if empty, a timer's only if not |
| Batcher.DueTimersDrain | internal/ai/batcher.go:99-106 | either timer, once due, hands out the whole buffer |
| Batcher.StopIsFinal | internal/ai/batcher.go:45-66 | after Stop nothing is accepted or buffered any more |
| Batcher.PlayAccounts | internal/ai/batcher.go:80-136 | every drained batch is delivered once, running or waiting; none is lost or delivered twice |
| Batcher.PlayArms | internal/ai/batcher.go:61-130 | both timers are armed exactly while something is buffered, and their deadlines come from the first and last buffered message |
| Batcher.NoMessageWaitsLong | internal/ai/batcher.go:61-130 | with prompt timers no message is buffered for more than 20 seconds, nor more than 3 after the last arrival |
| Batcher.DeliveryMayOvertake | internal/ai/batcher.go:80-136 | the order of delivery is not promised: a later batch can reach the callback first |
| Batcher.DeliveryIsInOrderIff | internal/ai/batcher.go:80-136 | delivery follows drain order at every moment exactly when each callback that starts takes a batch equal to all waiting before it |
| Batcher.FirstComeIsInOrder | internal/ai/batcher.go:132-136 | a flush mutex that serves first come, first served is enough |
| Mentions.MentionsName | internal/ai/orchestrator.go:1008-1030 | the skipping loop terminates with the answer of the search |
| Mentions.IndexFrom | internal/ai/orchestrator.go:1017-1018 | the first match at or after a position, or proof that there is none |
| Mentions.SearchIsSound | internal/ai/orchestrator.go:1008-1030 | what is found is a whole word |
| Mentions.SearchIsComplete | internal/ai/orchestrator.go:1025-1028 | jumping past a failed match skips no whole word, unless the name shadows itself |
| Mentions.SearchIsRightIff | internal/ai/orchestrator.go:1007-1030 | the answer is right on every text exactly when the trimmed, lowered name does not overlap itself behind a character that is no name character |
| Mentions.NameCharsDoNotShadow | internal/ai/orchestrator.go:1032-1034 | for names made of name characters the answer is always right |
| Mentions.CaseDoesNotMatter | internal/ai/orchestrator.go:1009-1014 | the case of letters, in the text or in the name, makes no difference |
| Mentions.NameCharCodes | internal/ai/orchestrator.go:1032-1034 | name characters are small letters, digits and the underscore |
| Strings.LowerMeaning | internal/ai/orchestrator.go:1013-1014 | lowering forgets the case of letters and nothing else |
| Strings.TrimMeaning | internal/ai/orchestrator.go:1009 | trimming takes all white space off both ends and nothing else |

## Where the code and its documentation disagree

- README.md:141-148 promises one deterministic order for UI and history. The code's comparator is not
  transitive; see `HonestNodesDisagree`, `ListIsDeterministicIff`, `HistoryIsDeterministicIff` and
  `OrderIsDeterministicIff`.
- README.md:222 says that late joiners get the recent messages they are missing. Not those of a sender of whom
  they heard a later one first; see `RepairIsCompleteIff` and `LiveMessageLeavesGap`.
- The comment at internal/ai/orchestrator.go:1007 says "contains name as a whole word". A name such as `a-a`
  shadows itself and is missed in `xa-a-a`; see `SearchIsRightIff`.

## Left out

- Sorting.SortSlice: beyond twenty elements only the documented contract of sort.SliceStable is kept (a permutation, sorted where the comparator is transitive and total), and the method shows one outcome; theorems that do not name short or small ledgers hold for all outcomes of that contract.
- Gate.ValidateEnvelopeData: an error is named by the reason recorded with it; the error's own wording is not modelled.
- Gate.FilterVerified: works on messages that are not nil, which is what the first check lets through; the notice of each rejected message is not modelled.
- Nodes.Node.RequestSync: the three-second timer that resets the status is not modelled; nor are request IDs.
- Nodes.Node.AcceptMessage: the broadcast to the browser, the trace, and the hand-over to the AI batcher or history are not part of the node's state here.
- Trust.TrustTracker.AllowRate: seconds and tokens are exact reals, so rounding of floating point is not modelled; bounds over histories assume that the times of one peer's calls are positive and do not go back.
- localeCompare is any collation given as a parameter: its answers flip with the arguments and are transitive, and different strings may count as equal.
- Comparators.HistoryFollowsLedger: AI history and browser records are the same `Message`, without their display fields.
- Mentions.MentionsName: text is bytes with ASCII case and white space; Unicode folding is not modelled.
- LedgerRuns.Finality: needs messages with an own clock, as validation enforces; `AcceptedAgainIff` says exactly what happens without.
- LedgerRepair.RepairIsCompleteIff: assumes that the answer fits the payload limit of 64 KiB and that an ID means one sender and one place in its log.
- Causality.ClocksDecideHappenedBefore: needs a run in which no foreign key has signed, because a foreign signer can put any numbers into its clock.
- Protocol.RunIsSafe: Ed25519 is an ideal predicate (a message verifies exactly when its payload was signed with the sender's key), SHA-256 is injective on payloads by hypothesis, a new message's UUID is fresh by hypothesis, and peer IDs that decode contain no `|`.
- LedgerOrder.OrderIsDeterministicIff: beyond twenty messages the diverging list is one that the sort's contract allows, since the sort's own method is not modelled there; agreement holds for all its outcomes.
- LedgerTop.SmallIsDeterministicIff: ledgers of twenty messages or more that evict are covered one way only (`EverySizeIsDeterministicIff`), since the sort is known there by its contract alone.
- History.HistoryIsDeterministicIff: beyond twenty messages as for the ledger; histories with more than thirty messages are covered one way (`NoInversionOneHistory`), and the persona's own replies are messages like others.
- ValidatorRuns.HonestIsNeverCharged: envelopes without a forwarder are left out, which the network library never hands over.
- History.Orchestrator.Observe: the decision to reply, which follows in Process, is not modelled.
- Batcher.PlayAccounts: callbacks do not overlap by construction, since one running slot stands for the flush mutex.
- Aliasing of messages: messages are values, so the copies made by cloneMessage need no proof.
- Counters are unbounded: clocks are assumed to stay below 2^64, and below 2^53 in the browser.
- Mutexes: each locked method of the ledger, the clock and the tracker is one atomic step.
- Nil messages in CompareMessages; a nil vector clock counts as an empty one.
- JSON bytes, libp2p, GossipSub, mDNS and websockets; full channels count as loss, and a node's own echoes may come back.
- The attack demo, prompts, Ollama, memory files, persona and model management, traces, diagnostics and DOM placement.
