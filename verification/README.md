# Verified models of the NTT command line, routes and operations scripts

Dafny models of the parts of the native token transfers code where order, encoding and arithmetic
decide whether funds and configuration stay right. `dafny verify dfyconfig.toml` checks all of it.

| file | what it models |
|---|---|
| `TaskPool.dfy`, `PoolSchedules.dfy`, `PoolCode.dfy` | the two-lane task pool: every interleaving of the workers and of the sequential lane, one step per resume-to-next-await; what holds over whole schedules; the code itself |
| `TaskEffects.dfy`, `Sequences.dfy`, `CollectMissing.dfy` | collecting missing peers: tasks of that pool push into shared per-chain tables between their awaits |
| `PullInbound.dfy` | pulling inbound limits in two pool runs that share a decimals table |
| `Track.dfy`, `TrackProgress.dfy` | tracking a multi-token transfer: the receipt's state machine over whatever the chains and relayers answer; what each turn and each run must make of the answers |
| `Wire.dfy`, `Xrel.dfy`, `Vaa.dfy`, `XrplPayloads.dfy`, `PayloadOffsets.dfy` | byte parsers against the documented layouts, the dispatch on the prefix, and where each field stands |
| `Hex.dfy`, `PayloadBuilders.dfy` | hex text and the onboarding and admin payload builders |
| `Ed25519.dfy`, `PrimeFields.dfy`, `Residues.dfy`, `Bytes.dfy` | curve decompression (section 5.1.3 of RFC 8032), and what it takes from the primality of its modulus |
| `Base58.dfy`, `Numerals.dfy` | base58, and numerals in any base |
| `ConfigDiff.dfy`, `ConfigPull.dfy` | the recursive configuration diff, applying it, and pull |
| `ConfigPush.dfy`, `PushTold.dfy` | reading a diff as transactions and running them on one EVM leg; what a push sends and leaves, told from the local file and the leg alone |
| `Texts.dfy`, `NumberText.dfy`, `LimitText.dfy`, `InboundLimits.dfy` | text, numbers and limits as text, and filling in missing inbound limits |
| `Amounts.dfy` | scaling, dust, the wire format of amounts, and the custody-against-supply check over runs of transfers |
| `PatchBinary.dfy` | the search-and-overwrite loop on a program binary |
| `SuiDeploy.dfy` | Sui setup in runs that may stop anywhere, with a progress file |
| `Outcomes.dfy` | results and options |

How the models are built:

- Where the source loops, mutates or awaits, there is a method or a class; each is proved equal to a
  specification function, and the properties are lemmas about that function. What an operation must do is
  also stated without that function, from its inputs and what it is told.
- What the network, the files and the users answer is a parameter: a function, or a sequence of
  observations that may stop anywhere. Tasks of the pool are runs of segments between awaits, of any length.
- Some properties do not hold as widely as one might expect. They are stated with the exact condition,
  and each has a lemma at an input that fails it:
  - the release parser's inverse, because decoding a prefix as ASCII drops each byte's high bit and because
    the last memo's type may run past the end of the buffer (`Xrel.ParsedWasWritten`; at inputs
    `Xrel.HighBitAccepted` and `Xrel.TruncatedTypeAccepted`);
  - the application name of an onboarding payload, lost in part when it begins with a zero byte
    (`PayloadBuilders.OnboardingRoundTrip`; `PayloadBuilders.ZeroNameComesBackShorter`);
  - the two envelope readers, which disagree on unsigned messages (`Vaa.ReadersAgree`; `Vaa.UnsignedHasNoBody`);
  - currency codes, which collide when their characters agree in the low bytes, a missing character
    counting as a zero, and with their hex spelling (`PayloadBuilders.CurrencyCollision`;
    `PayloadBuilders.CollidingCodes`, `PayloadBuilders.HexSpelling`);
  - the emptiness of a diff, because lists are compared by reference (`ConfigDiff.EmptyWhenSame`;
    `ConfigDiff.ListDiffers`). No field of a chain's configuration is a list, so only a file edited by hand
    has one;
  - the next diff after a pull, which is not empty when the remote has no parent for a nested local-only path
    (`ConfigPull.NextDiffEmpty`; `ConfigPull.ParentMissing`, `ConfigPull.ParentPresent`). The one path there is,
    `managerVariant`, is at the top level, where this does not arise (`ConfigPull.TopLevelPull`);
  - sending nothing when a push cannot be carried out. Addresses, keys and limit texts are read before anything
    is sent, but whether a threshold or a limit fits its word shows only when its turn to be sent has come
    (`PushTold.PushDeployment`, `ConfigPush.PlanEncodes`; `ConfigPush.PausedThenFails`,
    `ConfigPush.NegativeLimitFailsLate`);
  - asking again for inbound limits, when an accepted default is zero (`InboundLimits.DefaultsComplete`;
    `InboundLimits.ZeroDefaultListedAgain`);
  - returning from a Sui deployment once only, because a progress file that could not be removed is continued
    (`SuiDeploy.ReturnsOnce`; `SuiDeploy.ReturnsTwice`), and returning at all, when a completion is not in the
    file or its answer left out the administrator's object (`SuiDeploy.CanReturnExactly`;
    `SuiDeploy.AdminNotShown`); and returning the transceiver that the chain has, when its completion is not in
    the file (`SuiDeploy.LostTransceiverReturns`; `SuiDeploy.ReturnsWithoutTransceiver`).
- One number-theoretic fact is a hypothesis here: that P = 2^255-19 is prime (`PrimeFields.IsPrime`). What the
  curve check takes from it, Fermat's little theorem and that 2^((P-1)/4) squares to -1, is proved. Soundness of
  the check needs only the latter (`Ed25519.SqrtMinusOne`).

## Model

| member | source | states |
|---|---|---|
| PoolSchedules.EverySchedule | cli/src/utils/concurrency.ts:2-81 | for every schedule from the call on: pooled tasks in flight never exceed the worker count and the sequential lane's never exceed one, that lane has run in input order, and once all have returned each item ran each of its segments exactly once and its result is in its own place |
| TaskPool.PoolRefinesMap | cli/src/utils/concurrency.ts:31-81 | a finished pool is the plain sequential map: every item ran exactly its segments and holds its own value |
| TaskPool.ResumeKeeps | cli/src/utils/concurrency.ts:13-21 | one resume of any worker or of the lane keeps the pool's invariant: who holds which item, what has finished, what waits |
| PoolSchedules.SchedulesEnd | cli/src/utils/concurrency.ts:11-24 | no schedule is longer than a measure of the work, and a schedule that cannot go on has all workers and the lane returned |
| PoolSchedules.ResumeDecreases | cli/src/utils/concurrency.ts:13-24 | every resume strictly uses up that measure |
| PoolSchedules.InFlightBound | cli/src/utils/concurrency.ts:27-30 | at most one task per worker and one in the sequential lane, so at most workers plus one in all |
| PoolSchedules.LaneStaysInOrder | cli/src/utils/concurrency.ts:52-56 | whatever the others do, the lane's log is that of a plain loop over its items in input order |
| PoolCode.WorkerCount | cli/src/utils/concurrency.ts:7-22 | the number of workers for any JavaScript number: the largest that is within the item count and is one at most or within the concurrency |
| PoolCode.TwoLanePool.ResumeWorker | cli/src/utils/concurrency.ts:13-21 | a worker's code from one await to the next makes exactly the transition system's step and keeps the invariant |
| PoolCode.TwoLanePool.ResumeLane | cli/src/utils/concurrency.ts:52-56 | the same for the sequential lane |
| PoolCode.Partition | cli/src/utils/concurrency.ts:44-50 | the two lanes are exactly the indices that do and do not satisfy the predicate, in order |
| PoolCode.RunTaskPoolWithSequential | cli/src/utils/concurrency.ts:31-81 | for every choice of schedule the result at each index is the task's value for that item and index; at every moment at most one of the items that the predicate picks, and of the others at most one or as many as the concurrency, are under way; the picked ones ran as in a plain loop, and each item ran all its segments |
| TaskEffects.CompleteLogGathers | cli/src/utils/concurrency.ts:13-21 | whatever the schedule, what tasks push at their marked segments is, up to order, what running them one after another pushes |
| CollectMissing.AnyScheduleFindsGaps | cli/src/validation.ts:257-316 | any complete interleaving leaves a chain's lists with exactly its missing manager and transceiver peers, and its gap count |
| CollectMissing.EffectAgrees | cli/src/validation.ts:257-316 | one segment of a pair task keeps lists and counters of all chains equal to what the log so far has pushed |
| CollectMissing.PairsGiveGaps | cli/src/validation.ts:245-255 | over all ordered pairs, what one chain's pairs lack is exactly what is missing towards each other chain |
| CollectMissing.BuildTasks | cli/src/validation.ts:245-255 | the nested loops build every ordered pair of different chains, row by row |
| CollectMissing.MissingTables.Initialize | cli/src/validation.ts:195-236 | each chain starts with empty lists and with the flags and count of its Solana checks |
| CollectMissing.MissingTables.RunSegment | cli/src/validation.ts:257-316 | a segment pushes and counts at the chain it is about, and nowhere else, or throws on an unreadable limit before it pushes |
| CollectMissing.CollectMissingConfigs | cli/src/validation.ts:182-332 | under every schedule the collection rejects exactly when some pair lacks its manager peer and has a configured limit that, without its dots, `BigInt` does not read; otherwise a chain is reported exactly when it lacks something. Its manager peers are, as a multiset, one for each deployment of another chain whose peer is null there, with that deployment's manager and decimals and the number its own text for that chain reads as without dots, zero if there is none; its transceivers and Solana flags likewise |
| CollectMissing.RunTasks | cli/src/validation.ts:318-323 | the tasks of Solana chains go one at a time and in order, the others as many at a time as the concurrency allows, until all have run or one throws |
| PullInbound.FetchDecimals | cli/src/query.ts:209-221 | after the first pool run, under any schedule, every chain's decimals are in the table; the Solana managers were asked one at a time and in order, the others as many at a time as the concurrency allows |
| PullInbound.PullInboundLimits | cli/src/query.ts:185-307 | the configuration gets exactly the limits the chains answer, chains without limits get an outbound limit of "0", unread pairs keep theirs and are the ones reported, all else is unchanged |
| PullInbound.PulledReadsBack | cli/src/query.ts:269-279 | a pulled limit is valid text and reads back as the limit the chain answered, and as zero where there is no peer |
| PullInbound.CollectionReadsSame | cli/src/validation.ts:274-282 | the collection of missing peers reads a pulled limit as the limit the chain answered, and as zero where there is no peer |
| Track.RunIsLegal | sdk/route/src/types.ts:758-911 | over any run: every yielded receipt follows from the one before and what was observed since, recorded attestations only grow and each was observed, and the executor is consulted only after all transceivers but Wormhole's attested, never for a manual transfer |
| Track.RunTransitions | sdk/route/src/types.ts:764-907 | consecutive receipts follow the transition relation, and once at the destination a transfer never goes back |
| Track.FinalEndsRun | sdk/route/src/types.ts:880-903 | a finalized receipt comes right after no queued transfer and then executed were observed, and is the last thing yielded |
| Track.TurnDiscipline | sdk/route/src/types.ts:834-877 | a turn consults at most one relayer and finalizes only in its last yield |
| TrackProgress.ArrivingSettles | sdk/route/src/types.ts:783-903 | a turn that does not throw, of a transfer that has arrived or is told to be approved, leaves it queued with its release time exactly when a queued transfer is told, and final exactly when none is told and it was executed |
| TrackProgress.PursuingTurn | sdk/route/src/types.ts:764-877 | a turn that does not throw, of a transfer that is not approved yet, leaves it with the fetched message and with exactly the newly seen attestations, failed or attested as the relayer of the first transceiver that has not attested says: one of the four statuses or an Axelar error fails it, any other answer or a new attestation undoes a failure |
| TrackProgress.TurnThrows | sdk/route/src/types.ts:764-877 | exactly when a turn throws: no origin, message or attestation, or a transceiver waited for that has no relayer, origin or status |
| TrackProgress.RunFinishes | sdk/route/src/types.ts:758-911 | a run that does not throw ends final exactly when some turn within its time is told no queued transfer and executed, and that or an earlier one approved, or the transfer had arrived before; it ends at the first such turn |
| TrackProgress.TrackingFinishes | sdk/route/src/types.ts:758-911 | the same with the time that a call without a timeout, or with a timeout of zero, has: one hour |
| Track.SortedStably | sdk/route/src/types.ts:824-832 | the sorted transceivers are a permutation with Wormhole's last, each class in its old order |
| Track.TrackTransfer | sdk/route/src/types.ts:758-911 | the generator yields exactly the run's receipts, all sharing the tracking record it updates in place, and ends or throws as the run does |
| Track.Tracker.CheckTransceivers | sdk/route/src/types.ts:822-877 | the loop with its continues and its break is the recursive check of the sorted transceivers |
| Track.Tracker.Relay | sdk/route/src/tracking.ts:15-99 | which relayer is asked, what its answer makes of the receipt, and what throws |
| Track.RedeemsExactlyUnattested | sdk/route/src/types.ts:568-608 | completing redeems the attested message exactly while the first Wormhole transceiver has not attested it |
| Xrel.WrittenIsParsed | cli/src/xrpl/payloads.ts:94-192 | any release, with any of the three token kinds, any number of memos and any bytes after it, is parsed back from its documented layout |
| Xrel.ParsedWasWritten | cli/src/xrpl/payloads.ts:99-192 | what is parsed is a valid release, written there byte for byte exactly when the prefix has no high bits and the parser did not run past the end |
| PayloadOffsets.ReleaseHead | cli/src/xrpl/payloads.ts:111-128 | the eight fields of a parsed release are the bytes at offsets 4 to 103 |
| PayloadOffsets.ReleaseToken | cli/src/xrpl/payloads.ts:130-159 | the kind at byte 103 tells the token, and where its currency and issuer, or its issuance id, are |
| Xrel.ParseXrel | cli/src/xrpl/payloads.ts:99-192 | the parser with its moving offset returns or throws as the specification does |
| Xrel.ReadMemos | cli/src/xrpl/payloads.ts:161-177 | the memo loop reads the memos the recursive specification reads, or throws where it does |
| Vaa.WrittenIsParsed | cli/src/xrpl/payloads.ts:391-435 | any message with any number of signatures and any payload is parsed back from its bytes |
| Vaa.ParsedWasWritten | cli/src/xrpl/payloads.ts:391-435 | and whatever is parsed is exactly the bytes of a valid message |
| Vaa.ReadersAgree | solana/ts/lib/utils.ts:107-117 | the body found by the Solana client is the signed body, whose payload is the parsed one after 51 bytes, exactly when there is a signature |
| PayloadOffsets.ReleaseRefused | cli/src/xrpl/payloads.ts:99-177 | exactly which buffers are refused as too short, for their prefix, for their token type, or because a length of a memo is past the end |
| PayloadOffsets.EnvelopeFields | cli/src/xrpl/payloads.ts:391-435 | the fields of a parsed envelope are three at its start, signatures of 66 bytes each from byte 6, and six and the payload at fixed distances after them |
| Vaa.ParseVaa | cli/src/xrpl/payloads.ts:391-435 | the parser with its moving offset returns or throws as the specification does |
| XrplPayloads.TransferReads | cli/src/xrpl/payloads.ts:288-346 | any transfer message is parsed back from its documented layout |
| XrplPayloads.ParsedTransferWasWritten | cli/src/xrpl/payloads.ts:297-346 | what is parsed as a transfer was written there, up to the inner length the parser skips |
| PayloadOffsets.TransferFields | cli/src/xrpl/payloads.ts:297-346 | a parsed transfer is long enough, has both prefixes, and its ten fields stand at fixed offsets |
| PayloadOffsets.TransferRefused | cli/src/xrpl/payloads.ts:297-346 | a transfer is parsed exactly when it is long enough and has both prefixes; which of the two faults it is refused for |
| PayloadOffsets.RefillFields | cli/src/xrpl/payloads.ts:195-208 | a refill is parsed exactly when it is long enough and has its prefix, is refused for the one or the other, and its fields are the bytes from 4 to 40 |
| PayloadOffsets.AdminFields | cli/src/xrpl/payloads.ts:216-255 | the same for an administrator's payload, by the action at byte 4 |
| PayloadOffsets.OnboardingFields | cli/src/xrpl/payloads.ts:261-286 | the same for an onboarding payload, whose name is the padded field from its first byte that is not zero |
| XrplPayloads.DispatchIsExact | cli/src/xrpl/payloads.ts:350-374 | the dispatch returns a parser's result exactly when that parser accepts, and is unknown exactly when none does |
| XrplPayloads.ReadOnboarding | cli/src/xrpl/payloads.ts:261-286 | the onboarding parser, with its scan over the padding, as specified |
| PayloadBuilders.OnboardingRoundTrip | cli/src/xrpl/onboarding.ts:145-166 | a built onboarding payload is dispatched as one with the built fields; the application name comes back exactly when it does not begin with a zero byte |
| PayloadBuilders.InitDataAccepted | cli/src/xrpl/onboarding.ts:94-139 | init data is built exactly for decimals of one byte, an accepted currency code and an issuance id of 48 hex digits |
| PayloadBuilders.InitDataIs | cli/src/xrpl/onboarding.ts:116-139 | it reads as the decimals, then for a token its tag, its code and issuer or its id, and zeros up to byte 43 |
| PayloadBuilders.InitDataInjective | cli/src/xrpl/onboarding.ts:116-139 | two init data read as the same bytes exactly for the same decimals and the same token: the same issuer and two spellings of one currency code, or one issuance id in any letter case |
| PayloadBuilders.CurrencyToHex40 | cli/src/xrpl/onboarding.ts:94-108 | the hex of the 20 currency bytes for both accepted spellings, an error for every other |
| PayloadBuilders.CurrencyCollision | cli/src/xrpl/onboarding.ts:94-108 | two accepted codes have the same bytes exactly when both are hex and equal up to case, or both are short and equal modulo 256 after padding with zeros to three, or the hex one has the short one's bytes at 12 to 14 and zeros elsewhere |
| PayloadBuilders.RegisterPeerRoundTrip | cli/src/xrpl/admin.ts:39-51 | a built peer registration is dispatched as one with its manager, chain and address |
| PayloadBuilders.RotateAdminRoundTrip | cli/src/xrpl/admin.ts:57-67 | a built admin rotation is dispatched as one with its manager and new admin |
| PayloadBuilders.PublishedMemo | cli/src/xrpl/onboarding.ts:172-174 | the upper-cased memo reads as version, zero nonce and the payload |
| Hex.PaddedShows | cli/src/xrpl/onboarding.ts:49-73 | a number padded with zeros in hex is the hex of its big-endian bytes |
| Ed25519.IsOnCurve | ops/scripts/_status.ts:125-141 | as P is prime, exactly the encodings of points are accepted: y is reduced and some reduced x with the encoded sign completes it to a curve point; given only the square root of -1, whatever is accepted is one |
| Ed25519.PrimeGivesRoot | ops/scripts/_status.ts:138-138 | as P is prime, the constant the code multiplies by, 2^((P-1)/4), squares to -1 |
| Ed25519.PowP | ops/scripts/_status.ts:118-122 | square-and-multiply returns b^e mod P for every exponent |
| Ed25519.Sound | ops/scripts/_status.ts:125-141 | for any modulus, an accepted candidate yields a point of the curve with the encoded sign |
| Ed25519.Complete | ops/scripts/_status.ts:125-141 | in a prime field every point's encoding is accepted |
| Ed25519.DIsTheRatio | ops/scripts/_status.ts:123-123 | in a prime field the curve constant times 121666 is -121665, and it is not -1 |
| Base58.DecodeEncode | ops/scripts/_status.ts:92-113 | decoding an encoded byte string, leading zeros included, gives it back |
| Base58.EncodeDecode | ops/scripts/_status.ts:92-113 | encoding a decoded string over the alphabet gives it back |
| Base58.RecodeRoundTrip | ops/scripts/_status.ts:92-113 | digits written in another base and back are the same digits with the same leading zeros |
| Base58.Decode | ops/scripts/_status.ts:92-104 | the loops decode exactly the strings over the alphabet, to the specified bytes |
| Base58.Encode | ops/scripts/_status.ts:106-113 | the loops encode to the specified string |
| ConfigDiff.EmptyWhenSame | cli/src/diff.ts:21-78 | the diff is empty exactly when the trees show the same along every path that is not excluded and show no list there |
| ConfigDiff.PushRebuilds | cli/src/diff.ts:21-78 | applying the push sides and deletions to the remote shows the local tree along every path that is not excluded |
| ConfigDiff.PushRebuildsAll | cli/src/diff.ts:21-78 | with nothing excluded it is the local tree |
| ConfigDiff.PushKeepsExcluded | cli/src/diff.ts:31-35 | at an excluded key of objects both trees have, the remote value stays |
| ConfigDiff.DiffObjects | cli/src/diff.ts:21-78 | the two loops and the pruning loop compute the specified diff |
| ConfigDiff.PullRebuilds | cli/src/diff.ts:21-78 | and applying the pull sides to the local tree shows the remote one along every such path |
| ConfigPull.PullChain | cli/src/commands/pull.ts:58-79 | one chain's stored configuration: unchanged on an empty diff, else the remote one under the local-only values, or a throw when one cannot be set |
| ConfigPull.MergeRemotes | cli/src/commands/pull.ts:55-80 | the same for all chains that could be read; the others are untouched, changed tells whether any diff was not empty, and it ends when one chain throws |
| ConfigPull.ConfigFile.Pull | cli/src/commands/pull.ts:54-106 | the file gets the merged chains, with the inbound limits filled in, exactly when no chain throws or failed to be fetched, something changed and it was confirmed; in every other case it is left as it is |
| ConfigPull.NextDiffEmpty | cli/src/commands/pull.ts:58-79 | for any set of local-only paths, after a pull the next diff is empty exactly when the remote has no lists where paths are compared, and the path of every local-only value runs, up to its last key, through objects the remote has or through an excluded path |
| ConfigPull.LocalValuesKept | cli/src/commands/shared.ts:153-164 | what is stored has every local-only value, unless the remote has a list in its way |
| ConfigPull.SetIs | cli/src/commands/shared.ts:157-164 | setting a value throws exactly when a scalar that is not falsy stands on the way; a list there loses the value; otherwise it is there afterwards, and no path apart from its own shows anything else |
| ConfigPull.TopLevelPull | cli/src/commands/shared.ts:133-135 | with top-level paths, as the one there is, a pull never throws, keeps the local-only fields, and leaves no difference exactly when the remote has no lists |
| PushTold.PushDeployment | cli/src/config-mgmt.ts:45-233 | on an EVM leg: a local configuration that cannot be read, told from its fields and the leg, sends nothing; of every other, the transactions are exactly the ones it asks for, each once, and those before the first that cannot be encoded or reverts are sent; short of completing it leaves the owner; it completes exactly if it can be read, all can be encoded and none reverts, and then each field of the leg is as asked, or as it was where nothing is; a chain without a local limit always keeps its own; whatever ran did so while the first owner owned it, upgrade first and hand-over last; and the next diff is empty if the diff was settled |
| PushTold.PushedAsAsked | cli/src/config-mgmt.ts:77-232 | a transaction is planned exactly if the local configuration has a value for it that the leg does not show: a limit exactly if its text is not empty, parses to the amount and is not the shown one, and so for threshold, flag, version and accounts; no transaction is planned twice, and when all have run the leg is as asked |
| PushTold.PlannableWhenReadable | cli/src/config-mgmt.ts:82-210 | planning succeeds exactly when the local configuration has no unknown field, differs in none that cannot be set, and its differing accounts, limits and chains read |
| ConfigPush.PlanEncodes | evm/ts/src/ntt.ts:324-327 | all planned transactions can be encoded exactly when every limit is in 256 bits and the threshold reads as a number in 8 |
| ConfigPush.PausedThenFails | cli/src/config-mgmt.ts:131-182 | pausing together with a threshold of -1: the diff can be read, pausing is planned first and can be sent, the threshold cannot |
| ConfigPush.PushConverges | cli/src/config-mgmt.ts:82-232 | when every differing field has a local value in the form the leg shows and limits are canonical and dust free, the next diff is empty |
| ConfigPush.SettledIsPlannable | cli/src/config-mgmt.ts:82-210 | such a diff can always be read as transactions, all of which can be encoded |
| ConfigPush.PlanPush | cli/src/config-mgmt.ts:77-210 | for any order of the keys, planning succeeds exactly on supported keys whose addresses, limit texts and chains can be read, gives exactly their transactions in that order, thresholds of any value included, and these take any leg to what the keys ask for |
| ConfigPush.PlanTransceivers | cli/src/config-mgmt.ts:169-206 | the nested loops over the transceivers' keys, the same |
| ConfigPush.PlanInbound | cli/src/config-mgmt.ts:149-168 | the loop over the inbound chains plans exactly the limits that have a truthy push side, negative ones included, or fails on an unknown chain or a text that is no amount |
| ConfigPush.PlanIsOrderly | cli/src/config-mgmt.ts:211-232 | however many of the transactions run, all run under the first owner, an upgrade only first and a new owner only last |
| LimitText.FormatReadsBack | cli/src/limitFormatting.ts:1-55 | every formatted amount passes both checks, has its decimals, is zero exactly for zero, and reads back without its dot |
| LimitText.SignedReadsBack | cli/src/limitFormatting.ts:14-27 | a formatted amount with a sign in front passes the structural check though it is no valid limit, and reads as the negative |
| LimitText.ValidReads | cli/src/limitFormatting.ts:37-55 | every valid limit reads as a number, and as zero exactly when it is a zero limit |
| NumberText.OnlyTheseRead | cli/src/validation.ts:274-282 | within white space, `BigInt` reads digits with or without a sign, digits of base 16, 8 or 2 after their prefix, or nothing, and no other text |
| LimitText.FormatParses | cli/src/config-mgmt.ts:141-141 | a formatted amount is parsed as the same amount, and with a sign as its negative, exactly if it fits the 512 bits the parser computes in |
| LimitText.ValidLimitIs | cli/src/limitFormatting.ts:37-55 | the valid limits are exactly digits, a dot and as many digits as there are decimals; without decimals the dot may be missing |
| LimitText.ParsesWith | cli/src/config-mgmt.ts:141-141 | digits around at most one dot are parsed as the number they spell, scaled up by the decimals they leave out; digits beyond the decimals must be zeros |
| LimitText.OnlyWrittenParses | cli/src/config-mgmt.ts:141-141 | after the sign, nothing else is parsed |
| InboundLimits.CollectMissingInboundGroups | cli/src/limits.ts:20-84 | the groups hold exactly the listed sources of each destination, in configuration order, with its outbound limit and decimals; the destinations come in the order of the comparison, each once |
| InboundLimits.GroupedExactly | cli/src/limits.ts:38-80 | a pair is in a group exactly when it is listed, and the group carries its destination's outbound limit and decimals |
| InboundLimits.ListedIs | cli/src/limits.ts:26-66 | a pair is listed exactly when both are other chains of the configuration, one of them the new one if there is one, the destination's outbound limit has one dot, and the inbound one is absent or, without its dots, all zeros |
| InboundLimits.DeploymentFile.SetInboundLimit | cli/src/limits.ts:87-105 | one limit is written, creating the tables it needs, and nothing for an unknown destination |
| InboundLimits.DeploymentFile.ApplyInboundGroups | cli/src/limits.ts:124-205 | the asked pairs get the default or the first valid text typed, and everything else stays; it ends exactly when each has one, and nothing is written when prompts are skipped |
| InboundLimits.FilledIsValid | cli/src/limits.ts:175-199 | afterwards every listed pair has the accepted default or a valid limit with the destination's decimals, which reads as a number |
| InboundLimits.TypedAs | cli/src/limits.ts:175-199 | what is typed stands for itself, but nothing for the default, and "0" for a valid zero limit |
| InboundLimits.ListedAgain | cli/src/limits.ts:20-84 | afterwards a pair is listed exactly when it was listed and a zero was chosen for it; pairs not listed are unchanged |
| InboundLimits.DefaultsComplete | cli/src/limits.ts:160-174 | accepting all defaults leaves nothing listed exactly when no default is zero |
| Amounts.TransferIsExact | sdk/route/src/types.ts:288-298 | a trimmed amount keeps its value to the wire and to the destination, comes back whole, is the largest such amount not above the one asked for, and is that one exactly when there is no dust |
| Amounts.LargestWhole | sdk/route/src/types.ts:288-298 | the amount sent is the largest not above the one asked for that is whole in eight decimals and in the destination's |
| Amounts.ScaleDownExact | sdk/definitions/src/trimmedAmount.ts:34-48 | scaling down keeps the value exactly when there is no dust |
| Amounts.ScaleTruncates | sdk/definitions/src/trimmedAmount.ts:34-48 | scaling down divides towards zero, amounts below zero too |
| Amounts.QuoteIsWhatArrives | sdk/route/src/manual.ts:139-165 | the quoted destination amount is the one that arrives |
| Amounts.WireRoundTrip | sdk/definitions/src/trimmedAmount.ts:5-27 | encoding and decoding are inverse on all amounts in range and on all 72-bit values |
| Amounts.DeltaOfSums | ops/scripts/_status.ts:266-277 | the reported difference is that of the two sums in the finest scale of all legs |
| Amounts.SendMoves | ops/scripts/_status.ts:266-277 | a transfer adds to custody or takes from supply exactly what is sent and puts the encoded amount in flight; it changes nothing when the amount does not fit or is not there |
| Amounts.DeliverMoves | ops/scripts/_status.ts:266-277 | a message is taken out of flight, and exactly its amount in the leg's scale is minted or unlocked, if there is as much |
| Amounts.RunConserves | ops/scripts/_status.ts:266-277 | any run of lock, mint, burn and unlock transfers keeps the difference less what is in flight |
| Amounts.CheckReportsInFlight | ops/scripts/_status.ts:356-361 | so from an idle bridge the reported difference moves by exactly what is in flight |
| PatchBinary.PatchSolanaBinary | cli/src/solana/helpers.ts:26-43 | the buffer ends with the replacement at exactly the leftmost non-overlapping matches in the original bytes, all else kept, and the count is theirs |
| PatchBinary.SitesAreLeftmost | cli/src/solana/helpers.ts:32-43 | the places replaced are disjoint matches in which every match begins |
| PatchBinary.SitesAreUnique | cli/src/solana/helpers.ts:32-43 | no other places are |
| PatchBinary.SameSuffixSameMatch | cli/src/solana/helpers.ts:32-34 | past the search index, searching the overwritten buffer is searching the original |
| SuiDeploy.AnyHistory | cli/src/sui/deploy.ts:315-642 | over any number of runs that stop anywhere each setup completes at most once, and a run that returns carries the state that completion created |
| SuiDeploy.AnyHistoryOfPublished | cli/src/sui/deploy.ts:315-642 | so do the runs from freshly published packages |
| SuiDeploy.LostSaveThrows | cli/src/sui/deploy.ts:452-458 | after the save of the manager's completion is lost every later run throws and changes nothing |
| SuiDeploy.DeployKeeps | cli/src/sui/deploy.ts:315-642 | one run keeps the invariant: capabilities are spent by the completions, the file tells only the truth |
| SuiDeploy.ReturnsOnce | cli/src/sui/deploy.ts:623-642 | after a run that returned, every later run throws exactly if the progress file is gone, as it is once removed; if removing it failed and it is not spoilt, later runs can return, and those that do return the same ids |
| SuiDeploy.LostTransceiverReturns | cli/src/sui/deploy.ts:526-541 | after the save of the transceiver's completion is lost, a later run that is given a Wormhole state never returns and every other returns without transceiver ids; some does exactly if the manager's part is not stuck |
| SuiDeploy.CanReturnExactly | cli/src/sui/deploy.ts:452-615 | some history of later runs returns exactly unless the manager's completion is not in the file, or the file knows neither the administrator's object nor a registration |
| SuiDeploy.CanReturnWithTransceiver | cli/src/sui/deploy.ts:335-366 | when every later run is given a Wormhole state, some history returns exactly unless one of those holds or the transceiver's completion is not in the file |
| SuiDeploy.RunLogs | cli/src/sui/deploy.ts:315-642 | what one run does on the chain, from the world and its input: each completion, and then the registration, exactly if it is due, allowed and reached; registered exactly if both steps are behind it, the administrator's object and the transceiver's state are known, the file did not say registered, an action is left and the chain accepts |
| SuiDeploy.HistoryRegisters | cli/src/sui/deploy.ts:543-590 | over any history, after a run that returned both ids and to which registering was not refused the transceiver is registered, and the file never says so otherwise |
| SuiDeploy.RunReturns | cli/src/sui/deploy.ts:452-642 | exactly when a run returns, and with which ids |
| SuiDeploy.RunSaves | cli/src/sui/deploy.ts:430-632 | what a run leaves in the progress file, unless a failed write spoils it |
| SuiDeploy.SuiSetup.Run | cli/src/sui/deploy.ts:315-642 | the steps over the progress record and the chain are the specified run |

## Left out

- Network, file, process and prompt calls: their answers are parameters; what they do is not modelled.
- Pool tasks that reject: `Promise.all` rejects while workers go on. In the pool tasks always resolve; the collection of missing peers, the one caller whose task can throw, ends at the throw.
- Tracking: a network call that throws inside a turn; the run simply ends there. Lower-casing of transceiver names is for ASCII letters.
- Release and envelope fields are kept as bytes where the parsers show them as hex text; r-addresses are the 20 bytes they decode to, and UTF-8 application names are their bytes.
- JavaScript strings are sequences of characters; characters outside the basic plane, which JavaScript counts twice, are not distinguished.
- Ed25519.IsOnCurve: that 2^255-19 is prime is a hypothesis and not proved.
- keccak256, SHA-256, signatures and emitter derivation: uninterpreted or absent.
- The diff: objects with own properties that are undefined, inherited properties, and the coloured output. A local-only path that, in the local configuration, runs through a value that is no object.
- ConfigPull.NextDiffEmpty: local-only paths that begin with a dot, which the diff writes differently from the pull; and lists replaced at an index by a local-only value.
- The comparison of chain names by locale: any order of the names.
- InboundLimits.DeploymentFile.ApplyInboundGroups: when a prompt is aborted the program ends, and what has been set in memory by then is not stated.
- PushTold.PushDeployment: Solana's two-step ownership, which only proposes. The version after an upgrade is the one asked for. What the libraries accept is modelled for the values of a parsed JSON file; which transactions the contracts refuse, a threshold of zero for one, is a parameter.
- Finalizing a queued transfer by hand: nothing needs proving there.
- The rate limiter, thresholds and queues of the contracts: only what the command line relies on, that a stored limit may lose dust.
- SuiDeploy: the publish phase, a progress file left by an earlier deployment, and registration exactly once; a refused registration is only warned about.
- Address tables, flag parsing, command wiring and version lookup: nothing needs proving there.
