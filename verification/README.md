# Delayed acknowledgements on the Dymension hub

The hub holds IBC packets of a rollapp until the rollapp state they were proved against is final. A held packet can be
bought on the eIBC market, which changes its payee; it is later finalized, reverted by a hard fork of its rollapp, or, once
finalized, cleaned up at the end of an epoch. The project models this protocol and the code around it.

- `Bytes`, `SortedStore`, `Packets`, `PacketKey`: byte order, iteration order, packets and their keys.
- `Hub`: the state (packet store, address index, orders, ICS-04 receipts, acknowledgements and commitments, finalized
  heights, a log of effects) and one function for each step. What core IBC, the modules below the middleware and the market
  answer are free arguments of a step, so every theorem holds for all their answers. `Run` is any sequence of steps.
- `HubInvariant`, `HubRuns`: the invariant and its proof for every step and every run.
- `HubSafety`, `HubFork`, `HubEpoch`, `HubIndex`, `HubFate`, `Listing`: what it means for deliveries, forks, cleanup, the
  address index, single packets and listings. `HubExamples`: runs on which expected properties fail.
- `HubEffects`: the whole state after each step, told without the code. `HubBooks`, `HubOrigins`: what follows for runs:
  each consumed packet is accounted for once, and each callback repeats a message that was received.
- `KeeperModel`: the keeper and middleware as they run, a class whose methods update its fields. A rollapp packet in
  memory shares its IBC packet with its copies through a heap cell. Each method is proved to make its step.
- `Audit`, `Genesis`, `Base64`, `KeyText`: the registered invariant check, genesis export and import, keys as base64 text.
- `Pagination`, `PageFollowing`, `AddressPages`: both pagination loops, what a client gets that follows next keys, and the
  paginated query by address.
- `Varint`, `Proto`, `Messages`, `PacketCodec`: the generated protobuf codecs.
- `Ante`, `ProofHeights`: the walks over nested messages and the proof heights they hand to the middleware.
- `Transactions`: runs of transactions, each walked first and then run message by message, with the height a packet was
  proved at beside the height it was handled at.
- `Fees`: bridging fee, order price and hook budget.

Some of what one would expect is false of the code. In each case there is an example and the exact condition:

- The completion hook runs after a delivery the module below has refused, on a budget the packet has not brought
  (`FinalizeRunsHook`, `BudgetIsCovered`; `HookRunsAfterRefusal`, `RefusedDeliveryIsForwarded`).
- A fork scans from `lastValidHeight + 1` up to but not including 2^64-1, in wrapping arithmetic (`ForkRemovesExactly`;
  `LargestHeightSurvives`), and the scan up to a height wraps there too (`UpToHeightIsExact`; `LargestHeightListsNothing`).
- Restoring the original payee writes through a shared pointer, and the address index entry to delete is computed
  afterwards, so the fulfiller keeps an entry without a packet (`StepLeaksExactly`; `LeakHappens`, `ForkLeakHappens`), which
  makes the query by address fail (`QueryIsExact`) and its pages panic (`PagePanics`).
- Decoding a key text cuts trailing zero bytes, so a packet whose sequence is a multiple of 256 cannot be named by text
  (`TextReachesKey`; `UnreachableKey`).
- Reverse pagination repeats or loses entries when one key extends another (`ReverseIsLosslessExactly`; `StuckExample`), and
  the total of a counting page counts the entries before the offset as results (`TotalIsExact`; `TotalCountsSkipped`).
- A packet message is handled at the height of the last message in its transaction with its id text, be that one run or
  not (`OwnHeight`; `FirstReadsSecond`, `ShadowIsRead`). So a packet can be delivered before the height it was proved at is
  final (`AheadExactly`, `NothingAheadOfProof`; `DeliveredAheadOfProof`).
- Different packets can share an id text (`UidTextsAgree`; `UidCollision`).
- The packet acknowledged need not have the bytes received (`AckedBytesExactly`; `RespelledAckDiffers`).
- After a genesis import finalized packets are listed by address as well (`QueryAfterImportIsExact`; `ImportListsFinalized`).

## Model

| member | source | states |
|---|---|---|
| `HubRuns.RunKeepsInv` | x/delayedack/keeper/rollapp_packet.go:113-211 | after every run of sends, receipts, acknowledgements, timeouts, fulfilments, finalizations, forks, epoch ends and height updates: each packet sits under the key of its own fields, each pending packet is indexed under the address it pays, is guarded by its receipt or missing commitment, can be brought back to what was first received or sent, and has not been delivered |
| `HubRuns.StepKeepsInv` | x/delayedack/ibc_middleware.go:84-226 | every single step keeps that invariant, from any state that has it |
| `HubEffects.ValidTransferIs` | x/rollapp/keeper/authenticate_packet.go:20-54 | a transfer is valid if and only if it parses, has a positive amount and two parties that are not blank, and comes on a known channel that is canonical if it is a rollapp's; then its rollapp is the channel's |
| `HubEffects.ReceiveExactly` | x/delayedack/ibc_middleware.go:84-121 | the whole state after a receive, in each case: unchanged if ICS-04 does not admit the packet; an error acknowledgement and nothing else if the transfer is invalid or the module below or the market refuses; passed on if it is of no rollapp or its height is final; else on hold with all its fields, listed, and with an open order if the market makes one |
| `HubEffects.OutcomeExactly` | x/delayedack/ibc_middleware.go:124-200 | the same for acknowledgements and timeouts: unchanged if they are not admitted, not readable, invalid or refused; passed on; else on hold with acknowledgement and relayer, and with an order for error acknowledgements and timeouts only |
| `HubOrigins.MessageDoesOneThing` | x/delayedack/ibc_middleware.go:84-226 | a packet message changes nothing, or ICS-04 consumes its packet and exactly one thing happens: passed on, put on hold, or received and refused |
| `HubEffects.FulfillExactly` | x/eibc/keeper/fulfill.go:37-62 | the whole state after a fulfilment: unchanged unless an open order of a packet whose height is not final is bought; then the source of funds is the payee, the old payee is remembered, the index follows and the order records the fulfiller |
| `HubEffects.FinalizeExactly` | x/delayedack/keeper/finalize.go:16-80 | the whole state after a finalization: unchanged unless a pending packet of a final height is named; then the callback was made with the stored acknowledgement and relayer, the acknowledgement and the hook follow by their conditions, the packet is stored as finalized with an error if and only if one of them failed, and its order tracks the new key |
| `HubBooks.AccountedOnce` | x/delayedack/ibc_middleware.go:84-226 | on every run ICS-04 has consumed a packet if and only if its callback was made once, it is on hold, or it was received and refused by an error acknowledgement, and no two of these hold together |
| `HubBooks.SuccessIsAcceptance` | x/delayedack/keeper/completion.go:52-73 | on every run an acknowledgement is one of success if and only if the module below accepted the packet |
| `HubBooks.OrdersTrack` | x/eibc/keeper/hooks.go:35-81 | on every run each order, pending or finalized, tracks a stored packet of that status, the one it was made for |
| `HubOrigins.CallbacksAreReported` | x/delayedack/keeper/finalize.go:103-121 | on every run each callback has the type, acknowledgement, relayer, height and packet of a valid message of the run, and pays whom that named or whoever fulfilled the packet's order afterwards |
| `HubOrigins.HeldIsReported` | x/delayedack/ibc_middleware.go:203-226 | the same holds of every packet on hold: nothing changes its acknowledgement, relayer or height |
| `HubSafety.DeliveredAtMostOnce` | x/delayedack/keeper/finalize.go:39-80 | over every run, forks included, a packet's real callback is made at most once, and not at all while the packet is on hold |
| `HubSafety.NothingBeforeFinality` | x/delayedack/keeper/transfer.go:15-50 | every callback made for a rollapp was handled at a height that is finalized |
| `HubSafety.ProofHeightInvariant` | x/delayedack/keeper/invariants.go:64-72 | on every run no stored packet is finalized above its rollapp's finalized height |
| `HubSafety.ReplayAborts` | x/delayedack/keeper/finalize.go:16-33 | finalizing a key that is missing or already finalized changes nothing at all |
| `HubSafety.HookAtMostOnce` | x/delayedack/keeper/completion.go:94-125 | on every run, the completion hook runs at most once for each time a packet is put on hold |
| `HubSafety.FulfilledHookDoesNotRerun` | x/delayedack/keeper/completion.go:105-109 | finalization runs no hook for an order that was fulfilled |
| `HubSafety.FinalizePaysCurrentAcksOriginal` | x/delayedack/keeper/finalize.go:82-101 | a held incoming packet the module below accepts is paid to its current payee, while the packet acknowledged is the one first received, up to the spelling of its JSON, and exactly that one if nobody fulfilled it |
| `HubSafety.AckedBytesExactly` | x/delayedack/keeper/finalize.go:93-99 | the packet acknowledged has the very bytes first received if and only if nobody fulfilled it or those bytes were the canonical JSON of their transfer |
| `HubExamples.RespelledAckDiffers` | x/delayedack/keeper/finalize.go:93-99 | the failing case: the run receive, fulfil, finalize height, finalize packet acknowledges other bytes than were received, for every packet that can be held and was not spelled canonically |
| `HubSafety.RefusedIsNotPaid` | x/delayedack/keeper/completion.go:56-73 | one it refuses is paid to nobody: its error is acknowledged for the packet first received, and its callback is spent |
| `HubSafety.FinalizeRunsHook` | x/delayedack/keeper/completion.go:52-125 | finalization runs a hook if and only if the packet is an incoming one with an open order that has a hook, its transfer is valid and its acknowledgement goes out, whether or not the packet was accepted |
| `HubExamples.HookRunsAfterRefusal` | x/delayedack/keeper/completion.go:56-75 | the run receive, finalize height, finalize packet with an error acknowledgement runs the hook although nothing was paid, for every packet that can be held |
| `HubFate.HeldPacketFate` | x/delayedack/keeper/rollapp_packet.go:113-283 | whatever step is taken, a held packet stays as it is, or its own order was fulfilled before finality, or it was finalized by its key after finality, or a fork of its rollapp below its height took it back |
| `HubFate.FulfillPays` | x/eibc/keeper/fulfill.go:37-62 | a fulfilment makes the source of funds the payee, and no later fulfilment of the order has any effect |
| `HubFate.FulfillMarks` | x/eibc/keeper/fulfill.go:50-54 | the order records the fulfiller, not the source of funds, and is otherwise unchanged |
| `Packets.RedirectThenRestoreTransfer` | x/common/types/rollapp_packet.go:112-124 | redirecting and restoring gives the transfer back if and only if a payee was named or nothing changed; after redirecting, the new address is the payee |
| `Packets.RedirectThenRestoreBytes` | x/delayedack/keeper/rollapp_packet.go:131-166 | it gives the very data bytes back if and only if, besides, they were in the canonical JSON form |
| `HubFork.ForkRemovesExactly` | x/delayedack/keeper/fraud.go:16-53 | a fork removes exactly the rollapp's pending packets above the last valid height if and only if no pending packet of it lies where the scan wraps or stops short; everything left is unchanged |
| `HubFork.ForkEffect` | x/delayedack/keeper/fraud.go:16-53 | the whole state after a fork: the packets met are gone with their orders and one index entry each, exactly their guards are open again, and nothing else changes |
| `HubFork.ForkMissesLargestHeight` | x/delayedack/types/rollapp_packets_list_filter.go:38-48 | the failing case: a pending packet proved at height 2^64-1 survives every fork below it |
| `HubExamples.LargestHeightSurvives` | x/delayedack/keeper/fraud.go:19-20 | a run with such a packet: received at that height, it is still there after every fork |
| `HubFork.RevertedIsAdmittedAgain` | x/delayedack/keeper/fraud.go:32-45 | every reverted incoming packet has lost its receipt, and every reverted sent one has the commitment of the packet as first sent, fulfilled or not |
| `HubFork.RevertedCanBeReceived` | x/delayedack/keeper/fraud.go:38-42 | the next delivery of a reverted incoming packet passes the receipt check |
| `HubFork.RevertedCanBeSettled` | x/delayedack/keeper/fraud.go:32-37 | the packet first sent passes the commitment check after the revert, and its next acknowledgement or timeout reaches the middleware |
| `HubEpoch.EpochDeletesExactly` | x/delayedack/keeper/hooks.go:75-101 | epoch end deletes the finalized packets with the smallest keys, min(F, 1000 * max(1, ceil(limit / 1000))) of F, with their index entries and finalized orders, and leaves everything else as it is |
| `HubEpoch.RoundsMeetLimit` | x/delayedack/keeper/hooks.go:95-98 | the number of batches is the least positive one that reaches the limit |
| `HubIndex.StepLeaksExactly` | x/delayedack/keeper/rollapp_packet.go:174-211 | every step keeps the address index sound, except that finalizing a fulfilled incoming packet whose acknowledgement was attempted, or reverting a fulfilled sent one, leaves exactly the entry (fulfiller, old key) |
| `HubIndex.RunLeaks` | x/delayedack/keeper/rollapp_packet.go:38-62 | along every run the stale entries are among those leaked by these two steps |
| `HubIndex.QueryIsExact` | x/delayedack/keeper/rollapp_packet.go:66-81 | a query by address answers with exactly the pending packets that pay it, in key order, if and only if the index has no stale entry for it |
| `HubIndex.FulfilledFinalizeBreaksQuery` | x/delayedack/keeper/finalize.go:93-99 | after such a finalization the fulfiller's query fails |
| `HubExamples.LeakHappens` | x/common/types/rollapp_packet.go:112-124 | the run receive, fulfil, finalize height, finalize packet leaves exactly one stale entry and a failing query, for every packet that can be held, every height and every fulfiller other than the receiver |
| `HubExamples.ForkLeakHappens` | x/delayedack/keeper/fraud.go:32-45 | the run send, time out, fulfil, fork leaves exactly the entry of the fulfiller, for every packet the hub can send and every fulfiller other than the sender |
| `PacketKey.KeyLayout` | x/common/types/key_rollapp_packet.go:51-72 | a key is 0x00 and the status byte, then behind slashes the rollapp id, the big-endian height, the name of the type, the source channel and the big-endian sequence |
| `PacketKey.KeyInjective` | x/common/types/key_rollapp_packet.go:51-72 | with rollapp ids free of the separator, equal keys have equal fields, although the raw height and sequence may contain it |
| `PacketKey.SlashedIdsCollide` | x/common/types/key_rollapp_packet.go:90-92 | with a separator in a rollapp id two packets of different rollapps can share a key |
| `PacketKey.KeysArePrefixFree` | x/common/types/key_rollapp_packet.go:51-72 | with separator-free rollapp and channel ids no key extends another |
| `PacketKey.HeightRangeIsExact` | x/common/types/key_rollapp_packet.go:77-86 | a key lies between two height prefixes if and only if status and rollapp agree and the height is in the range |
| `PacketKey.KeyOrderFollowsHeight` | x/common/types/key_rollapp_packet.go:77-79 | within a status and rollapp a lower height means a smaller key |
| `Listing.FromHeightIsExact` | x/delayedack/types/rollapp_packets_list_filter.go:38-48 | the scan from a height selects the pending packets of the rollapp from that height on, below 2^64-1 |
| `Listing.UpToHeightIsExact` | x/delayedack/types/rollapp_packets_list_filter.go:22-36 | the scan up to a height selects exactly the pending packets of the rollapp up to it, if and only if the height is not 2^64-1 or there are none |
| `HubExamples.LargestHeightListsNothing` | x/delayedack/keeper/rollapp_packet.go:286-295 | the failing case: up to height 2^64-1 the scan misses a packet just received |
| `Listing.OfStatusIsExact` | x/delayedack/types/rollapp_packets_list_filter.go:78-87 | the scan by status selects exactly the packets of that status |
| `Listing.OfRollappStatusIsExact` | x/delayedack/types/rollapp_packets_list_filter.go:50-59 | the scan by rollapp and status selects exactly those packets |
| `Listing.OfRollappIsExact` | x/delayedack/types/rollapp_packets_list_filter.go:71-76 | the scan by rollapp lists its packets of every status and no others |
| `Listing.ListingFollowsHeight` | x/delayedack/keeper/rollapp_packet.go:214-246 | a listing is in order of proof height within a rollapp and status |
| `Bytes.PrefixEndBytes` | internal/collcompat/collections_pagination.go:373-396 | the carrying loop computes the least bound above everything with the prefix |
| `Bytes.PrefixEndIsExact` | internal/collcompat/collections_pagination.go:370-396 | a key lies from the prefix up to its end bound if and only if it starts with the prefix; there is no bound if and only if all bytes are 0xFF |
| `KeeperModel.RestoreOriginalTransferTarget` | x/common/types/rollapp_packet.go:112-124 | the original payee is written through the shared packet, and every copy of the struct sees it |
| `KeeperModel.Keeper.SetRollappPacket` | x/delayedack/keeper/rollapp_packet.go:22-34 | the packet is stored under its own key and nothing else changes |
| `KeeperModel.Keeper.GetRollappPacket` | x/delayedack/keeper/rollapp_packet.go:97-109 | reading gives a copy with a packet of its own, or an error for a missing key |
| `KeeperModel.Keeper.UpdateRollappPacketTransferAddress` | x/delayedack/keeper/rollapp_packet.go:113-169 | the pending packet gets the new payee and moves in the index; any other status or unreadable data is an error |
| `KeeperModel.Keeper.AfterPacketStatusUpdated` | x/eibc/keeper/hooks.go:35-54 | the order follows its packet to the finalized side with the new key |
| `KeeperModel.Keeper.UpdateRollappPacketAfterFinalization` | x/delayedack/keeper/rollapp_packet.go:174-211 | the packet moves from its pending to its finalized key, and the index entry of the payee it then has is dropped |
| `KeeperModel.Keeper.DeleteRollappPacket` | x/delayedack/keeper/rollapp_packet.go:264-283 | packet, index entry and the orders of both statuses go |
| `KeeperModel.Keeper.ListRollappPackets` | x/delayedack/keeper/rollapp_packet.go:214-246 | the nested loops list the matching packets of each range in key order, cut at the limit |
| `KeeperModel.Keeper.SavePacket` | x/delayedack/ibc_middleware.go:203-226 | a new pending packet is stored and indexed under its payee |
| `KeeperModel.Keeper.DemandOrderHandler` | x/eibc/keeper/handler.go:22-61 | an order is created under the packet's key if the market accepts it |
| `KeeperModel.Keeper.OnRecvPacket` | x/delayedack/ibc_middleware.go:84-121 | the handler, with its simulation on a cached context, makes the receive step: pass through, hold, or error acknowledgement |
| `KeeperModel.Keeper.OnOutcomePacket` | x/delayedack/ibc_middleware.go:124-200 | the handlers of acknowledgements and timeouts make the outcome step, and fail exactly when it does |
| `KeeperModel.Keeper.AfterDemandOrderFulfilled` | x/delayedack/keeper/hooks.go:38-51 | the hook runs before the payee is changed, and its failure prevents that |
| `KeeperModel.Keeper.FulfillOrder` | x/eibc/keeper/keeper.go:142-165 | fulfilment as a transaction: only an open order of a packet whose height is not final, and all or nothing |
| `KeeperModel.Keeper.FinalizeCompletionHook` | x/delayedack/keeper/completion.go:94-125 | the hook runs for an unfulfilled order that has one |
| `KeeperModel.Keeper.WriteRecvAck` | x/delayedack/keeper/finalize.go:82-101 | an acknowledgement of the restored packet is written at most once; a failure keeps the store but not the packet in memory |
| `KeeperModel.Keeper.FinalizeOnRecv` | x/delayedack/keeper/completion.go:52-76 | delivery, acknowledgement and hook in this order, with the effect on the shared packet |
| `KeeperModel.Keeper.FinalizePacket` | x/delayedack/keeper/finalize.go:39-80 | callback by type, error recorded, packet moved to its finalized key |
| `KeeperModel.Keeper.FinalizeRollappPacket` | x/delayedack/keeper/finalize.go:16-33 | finalization as a transaction: nothing is kept unless all of it succeeds |
| `KeeperModel.Keeper.RevertPacket` | x/delayedack/keeper/fraud.go:32-45 | one round of a fork, with the restore through the shared packet before the deletion |
| `KeeperModel.Keeper.OnHardFork` | x/delayedack/keeper/fraud.go:16-53 | the loop makes the fork step, or nothing if a packet cannot be read |
| `KeeperModel.Keeper.DeletePackets` | x/delayedack/keeper/hooks.go:90-93 | the inner loop of epoch end deletes every packet of a batch |
| `KeeperModel.Keeper.AfterEpochEnd` | x/delayedack/keeper/hooks.go:75-101 | on every reachable state the loop terminates and makes the epoch step; another epoch's identifier changes nothing |
| `KeeperModel.Keeper.GetPendingPacketsByAddress` | x/delayedack/keeper/rollapp_packet.go:66-81 | the walk over the index entries answers the query by address, or fails at the first missing packet |
| `Audit.CheckRollapp` | x/delayedack/keeper/invariants.go:41-62 | the loop finds a packet finalized too early among those listed for the rollapp |
| `Audit.InvariantProofHeight` | x/delayedack/keeper/invariants.go:29-39 | the check is broken if and only if some rollapp breaks it |
| `Audit.BreaksIsExact` | x/delayedack/keeper/invariants.go:41-72 | a rollapp breaks it if and only if the store holds a packet of it finalized above its finalized height |
| `Audit.NeverBroken` | x/delayedack/keeper/invariants.go:29-39 | the check never fails, on any run |
| `Genesis.ExportGenesis` | x/delayedack/keeper/rollapp_packet.go:248-262 | all packets, in key order |
| `Genesis.InitGenesis` | x/delayedack/genesis.go:12-26 | the loop stores and indexes each packet, or panics |
| `Genesis.ExportImport` | x/delayedack/genesis.go:12-34 | importing an export restores the packets exactly and gives one index entry per packet, finalized ones included |
| `Genesis.RunSurvivesGenesis` | x/delayedack/genesis.go:12-34 | this holds for the packets of every run |
| `Genesis.ImportPanics` | x/delayedack/genesis.go:15-23 | an import panics if and only if some packet has no type or no readable transfer |
| `Genesis.ImportedIndex` | x/delayedack/genesis.go:14-25 | an import drops exactly the stale entries and adds exactly those of finalized packets |
| `Genesis.QueryAfterImport` | x/delayedack/keeper/rollapp_packet.go:66-81 | after an import no query by address fails, and it lists every packet that pays the address |
| `Genesis.QueryAfterImportIsExact` | x/delayedack/keeper/rollapp_packet.go:66-81 | it answers with the pending packets that pay the address if and only if no finalized packet pays it |
| `HubExamples.ImportListsFinalized` | x/delayedack/genesis.go:14-25 | the failing case: a query that was exact before the export is not after the import, for every finalized packet |
| `Genesis.DeleteAfterImport` | x/delayedack/keeper/rollapp_packet.go:264-283 | deleting packets keeps that index exact |
| `Base64.EncodeExactly` | x/common/types/key_rollapp_packet.go:124-128 | the encoder writes the alphabet of RFC 4648 table 1, six bits to a symbol, with its padding and zero bits left over, and no other text |
| `Base64.DecodeExactly` | x/common/types/key_rollapp_packet.go:113-116 | the decoder gives a byte string for exactly its base64 texts, whatever the bits left over, with line breaks anywhere |
| `Base64.DecodeEncode` | x/common/types/key_rollapp_packet.go:113-128 | base64 gives every byte string back |
| `KeyText.DecodedFits` | x/common/types/key_rollapp_packet.go:113-116 | what is decoded fits the buffer that was made for it |
| `KeyText.KeyTextRoundTrip` | x/common/types/key_rollapp_packet.go:113-128 | decoding an encoded key gives the key without its trailing zero bytes |
| `KeyText.TextReachesKey` | x/common/types/key_rollapp_packet.go:113-121 | a packet's key can be given as text, the encoder's or any other, if and only if its sequence is not a multiple of 256 |
| `KeyText.FinalizePacketByPacketKey` | x/delayedack/keeper/msg_server.go:80-117 | finalization by text is finalization of the decoded key; text that does not decode is refused |
| `KeyText.FinalizePacket` | x/delayedack/keeper/msg_server.go:51-78 | finalization by fields is finalization of the key they make |
| `KeyText.FieldsReachPacket` | x/delayedack/types/msgs.go:38-47 | fields name a stored packet if and only if it is pending and has these fields |
| `KeyText.ExportOrders` | x/eibc/genesis.go:37-62 | every order leaves with its tracking key in base64, an empty one as it is |
| `KeyText.OrdersRoundTrip` | x/eibc/genesis.go:13-62 | exported orders are imported with the keys they had, trailing zero bytes included |
| `Pagination.AdvanceIter` | internal/collcompat/collections_pagination.go:236-248 | false if and only if there are fewer entries than the offset |
| `Pagination.PaginateNoKey` | internal/collcompat/collections_pagination.go:124-234 | the page has the first results up to the limit; the next key is the first entry, or with counting the last, at which the page is full; the total is the matches from the offset on plus the offset, in 64 bits, also when results beyond the page cannot be made; it fails if and only if an entry it evaluates has an error |
| `Pagination.PaginateByKey` | internal/collcompat/collections_pagination.go:252-321 | the page has the results among the first entries up to the limit, and the key of the next entry; a callback's error within them is an error |
| `Pagination.ScanHasPrefix` | internal/collcompat/collections_pagination.go:352-368 | everything a scan visits starts with the prefix, in both directions, so stripping it cannot fail |
| `PageFollowing.ScanExactly` | internal/collcompat/collections_pagination.go:352-368 | a scan visits exactly the keys with the prefix from the start key on, or, going down, those before it and those that extend it |
| `PageFollowing.ScanIsOrdered` | internal/collcompat/collections_pagination.go:352-368 | it goes strictly up or strictly down |
| `Pagination.Paginate` | internal/collcompat/collections_pagination.go:73-120 | offset and key together are an error; an exhausted offset is an empty page; a limit of zero is 100 with counting; otherwise the page by offset or by key with the prefix stripped, or a panic if and only if an entry it evaluates has an error |
| `PageFollowing.FirstPageSplits` | internal/collcompat/collections_pagination.go:151-224 | the results of a page by offset and those from its next key on are all results, counting or not |
| `PageFollowing.ForwardIsLossless` | internal/collcompat/collections_pagination.go:73-321 | going forwards, following next keys from any first page gives every result once and in order, and ends |
| `PageFollowing.ReverseResumesAt` | internal/collcompat/collections_pagination.go:354-361 | going backwards, a request by key visits the keys that extend it again and then goes on with it |
| `PageFollowing.ReverseIsLossless` | internal/collcompat/collections_pagination.go:352-368 | going backwards the same holds when no key of the range extends another |
| `PageFollowing.ReverseIsLosslessExactly` | internal/collcompat/collections_pagination.go:352-368 | following backwards gives all keys once and in order for every limit if and only if no key of the range extends another |
| `PageFollowing.StuckForever` | internal/collcompat/collections_pagination.go:354-361 | when as many keys extend a next key as a page holds, the client is sent back to it for ever |
| `PageFollowing.StuckExample` | internal/collcompat/collections_pagination.go:354-361 | so it is with the keys 01 and 01 00 and pages of one |
| `PageFollowing.TotalIsExact` | internal/collcompat/collections_pagination.go:230-232 | the total a counting page reports is the number of results if and only if every entry before the offset is one and the number fits 64 bits |
| `PageFollowing.TotalCountsSkipped` | internal/collcompat/collections_pagination.go:230-232 | the failing case: one result after a skipped entry, and a total of two |
| `AddressPages.PagesByAddress` | x/delayedack/keeper/rollapp_packet.go:84-94 | on every run, with separator-free channel ids, forwards or backwards and for every page size, following the pages of an address whose entries have their packets gives the answer of the query by address, or its reverse |
| `AddressPages.RunListsPacketKeys` | x/delayedack/keeper/rollapp_packet.go:38-62 | on every run each entry of the index, stale or not, holds the key of a packet |
| `AddressPages.PagePanics` | x/delayedack/keeper/rollapp_packet.go:84-94 | a page by address panics if and only if one of the entries it would show has no packet |
| `AddressPages.EntryIsScanned` | x/delayedack/keeper/rollapp_packet.go:84-94 | every entry of an address is on the scan of its pages, in either direction |
| `AddressPages.MissingPacketPanics` | x/delayedack/keeper/rollapp_packet.go:84-94 | so an entry without a packet makes every page that reaches from before it to the end panic, in either direction, by offset and by key |
| `Varint.SovIsLength` | x/common/types/completion_hook.pb.go:171-173 | the size computed from the bit length is the length of the varint |
| `Varint.EncodeAt` | x/common/types/completion_hook.pb.go:143-153 | the number is written to end at the offset and nothing else changes |
| `Varint.Decode` | x/common/types/completion_hook.pb.go:181-195 | the shift loop reads the varint, with overflow after ten bytes and 64-bit wrapping |
| `Varint.RoundTrip` | x/common/types/completion_hook.pb.go:143-195 | every 64-bit number is read back, whatever follows it |
| `Varint.EncodeExactly` | x/common/types/completion_hook.pb.go:143-153 | the bytes are the seven-bit digits of the number, low ones first, all but the last with the high bit, and none too many |
| `Varint.ReadExactly` | x/common/types/completion_hook.pb.go:181-195 | what is read is the run of bytes up to the first without the high bit, of at most ten, and its number in 64 bits |
| `Proto.ParseAppend` | x/common/types/completion_hook.pb.go:177-292 | parsing a concatenation is parsing the second part into the message the first gave |
| `Proto.UnknownIsIgnored` | x/common/types/completion_hook.pb.go:272-284 | unknown fields, nested groups included, can stand between fields without changing the message |
| `Proto.SkipsForeign` | x/common/types/completion_hook.pb.go:293-370 | skipping finds the end of every field the wire format can write, of any wire type, with groups nested to any depth |
| `Proto.ForeignIsUnknown` | x/common/types/completion_hook.pb.go:272-284 | so every such field under a number the message does not know is passed over whole |
| `Proto.WrongWireFails` | x/common/types/completion_hook.pb.go:199-210 | a known field with another wire type, an end tag without a group and the field number zero are errors |
| `Proto.CutFieldFails` | x/common/types/completion_hook.pb.go:207-236 | a known field that is cut off anywhere is an error |
| `Proto.WrapsAre` | x/common/types/completion_hook.pb.go:199-200 | conversions to signed integers keep the low bits |
| `Proto.FieldRoundTrip` | x/common/types/completion_hook.pb.go:126-139 | a written field is read back with its number and value |
| `Proto.ListRoundTrip` | x/common/types/rollapp_packet.pb.go:225-293 | a written list of fields sets exactly these, later ones winning |
| `Messages.PutField` | x/common/types/completion_hook.pb.go:126-132 | content, length and tag are written backwards as one field, and nothing else changes |
| `Messages.MarshalHookTo` | x/common/types/completion_hook.pb.go:121-141 | the message fills exactly its size at the end of the buffer |
| `Messages.MarshalHook` | x/common/types/completion_hook.pb.go:106-114 | the result is the message's bytes, from offset 0 on |
| `Messages.HookShape` | x/common/types/completion_hook.pb.go:154-169 | Size is the length of the bytes |
| `Messages.HookLayout` | x/common/types/completion_hook.pb.go:126-139 | the name stands under tag 0x0a and the data under 0x12, each behind its length, and an empty one not at all |
| `Messages.HookRoundTrip` | x/common/types/completion_hook.pb.go:106-292 | what is marshalled is unmarshalled |
| `Messages.HookMerge` | x/common/types/completion_hook.pb.go:205-268 | reading a message into another overwrites exactly the fields that are not empty |
| `Messages.HookConcat` | x/common/types/completion_hook.pb.go:177-292 | two messages in a row give their field-wise merge, the last one winning |
| `Messages.HookAppend` | x/common/types/completion_hook.pb.go:177-292 | reading a concatenation is reading its parts one into the other, unknown fields included |
| `Messages.SkipAt` | x/common/types/completion_hook.pb.go:293-370 | the skipping loop, in signed 64-bit arithmetic, finds the end of a field whenever that lies within the input |
| `Messages.ReadField` | x/common/types/completion_hook.pb.go:180-285 | one round of the loops, with its overflow and bounds checks, reads the field at the index and never leaves the input |
| `Messages.UnmarshalHook` | x/common/types/completion_hook.pb.go:177-292 | the loop terminates on every input and computes the parse |
| `PacketCodec.MarshalRecordTo` | x/common/types/rollapp_packet.pb.go:225-293 | the record fills exactly its size at the end of the buffer |
| `PacketCodec.MarshalRecord` | x/common/types/rollapp_packet.pb.go:210-218 | the result is the record's bytes, of the size announced |
| `PacketCodec.RecordLayout` | x/common/types/rollapp_packet.pb.go:225-293 | the nine fields stand in order under the tags 0x0a to 0x4a, each in its own form; zero and empty ones are left out, an empty packet is not |
| `PacketCodec.RecordRoundTrip` | x/common/types/rollapp_packet.pb.go:210-660 | every record is read back: a missing packet as missing, the type -1 through ten bytes |
| `PacketCodec.RecordBytesInjective` | x/common/types/rollapp_packet.pb.go:225-293 | different records have different bytes |
| `PacketCodec.RecordConcat` | x/common/types/rollapp_packet.pb.go:354-660 | two records in a row give their merge: later fields win, and the bytes of an embedded packet go on |
| `PacketCodec.UnmarshalRecord` | x/common/types/rollapp_packet.pb.go:354-660 | the loop terminates on every input and computes the parse; a packet field met again is read into the old one |
| `Ante.AnyBlocks` | app/ante/reject_msgs.go:92-96 | some predicate disallows the type at this depth |
| `Ante.CheckMsgs` | app/ante/reject_msgs.go:69-76 | a tree is accepted if and only if every message at every path is allowed at its depth, is below depth 6, unpacks, and grants nothing disallowed |
| `Ante.CheckMsg` | app/ante/reject_msgs.go:79-127 | the same for one message and what it contains |
| `Ante.AcceptedExactly` | app/ante/reject_msgs.go:28-41 | a filter of lists of types, each blocked from a depth on, accepts exactly the trees of at most six levels that unpack and hold no Ethereum transaction and on no level a type listed for it or a grant of one |
| `Ante.HandleMsgs` | app/ante/inner_decorator.go:45-54 | the callbacks are called for what the walk meets, in order, until something fails |
| `Ante.HandleMsg` | app/ante/inner_decorator.go:56-93 | the same for one message; a wrapper without contents is a leaf |
| `Ante.MeetingsAreLeaves` | app/ante/inner_decorator.go:45-93 | what the walk meets is, for every tree, each leaf once, and each message that does not unpack or is at the depth limit, in the order of their paths |
| `Ante.AcceptedNeverStops` | app/ante/inner_decorator.go:56-78 | in an accepted tree the decorator meets only allowed leaves: nothing but a callback can stop it |
| `ProofHeights.UidLayout` | x/common/types/packet_uid.go:24-26 | a packet's id text is the name of the type, the hub's channel and port for it, and the decimal sequence, joined by dashes |
| `ProofHeights.UidInjective` | x/common/types/packet_uid.go:24-26 | on generated channel ids, whatever the ports, equal id texts mean the same packet |
| `ProofHeights.UidInjectiveByPort` | x/common/types/packet_uid.go:24-26 | the same on any channels if the ports have no dash |
| `ProofHeights.UidTextsAgree` | x/common/types/packet_uid.go:24-26 | two packets have the same id text if and only if type and sequence agree and channel, dash and port together read the same |
| `ProofHeights.UidCollision` | x/common/types/packet_uid.go:24-26 | the failing case: a packet on channel c and port x-p shares its id text with one on channel c-x and port p, for all texts c, x and p |
| `ProofHeights.WalkRecordsLast` | x/delayedack/ante/ibc_proof_height.go:21-60 | after the walk the context has, for every packet named, the height of its last message, and is otherwise unchanged |
| `ProofHeights.HeightReadIsLast` | x/delayedack/ante/ibc_proof_height.go:62-75 | in every accepted transaction each packet message, at whatever path, reads the height of the last message with its id text |
| `ProofHeights.HeightReadIsLastAbout` | x/delayedack/ante/ibc_proof_height.go:62-75 | on generated channels that is the last message about the same packet |
| `ProofHeights.OwnHeight` | x/delayedack/ante/ibc_proof_height.go:77-91 | in every accepted transaction a message reads its own height if and only if the last one with its id text carries the same |
| `ProofHeights.FirstReadsSecond` | x/delayedack/ante/ibc_proof_height.go:77-91 | the failing case: of two messages about one packet the first reads the height of the second |
| `ProofHeights.ShadowIsRead` | app/ante/inner_decorator.go:56-93 | the failing case for a message that is not run: one inside a proposal, about the same packet or another with its id text, decides the height the message beside it reads |
| `Transactions.AheadExactly` | x/delayedack/keeper/transfer.go:15-50 | on every run of transactions each rollapp delivery stems from a message of an accepted one, and was made ahead of the finality of its proof if and only if the last message there with its id text carries a finalized height and its own height is not final |
| `Transactions.NothingAheadOfProof` | x/delayedack/keeper/transfer.go:15-50 | if no accepted transaction gives two heights for one id text, nothing is delivered before the height it was proved at is final |
| `Transactions.ChainKeeps` | x/delayedack/ante/ibc_proof_height.go:21-75 | on every run of transactions the invariant holds, every held or delivered rollapp packet has the height its message read, and that message and the one read are in one accepted transaction |
| `Transactions.ChainIsRun` | app/ante/cosmos_handler.go:30-37 | the hub after any transactions is in a state of some run of single steps |
| `Transactions.ExecutedExactly` | app/ante/inner_decorator.go:56-83 | a transaction runs each message that stands outside wrappers or only inside running ones, once and in the order of their paths |
| `Transactions.AllOrNothing` | app/ante/cosmos_handler.go:20-30 | the messages run are handled one after the other, each on what the last one left, or, if one fails, nothing of the transaction is kept |
| `HubExamples.DeliveredAheadOfProof` | app/ante/inner_decorator.go:56-93 | the failing case: a height is finalized, then one transaction has a receipt proved above it and, inside a proposal, a message with the same id text and that height; the packet is delivered at once, for every packet that can be held |
| `Fees.FeeIsShare` | x/delayedack/keeper/params.go:33-36 | the fee is the rate times the amount cut down to whole units, and the opposite for the opposite amount |
| `Fees.FeeIsLess` | x/delayedack/types/params.go:34-45 | a valid rate takes less than the whole of any positive amount |
| `Fees.NetIsMonotone` | x/delayedack/keeper/params.go:33-36 | a larger transfer never leaves less |
| `Fees.SplittingSavesLittle` | x/delayedack/keeper/params.go:33-36 | the fees of the parts of a transfer are at most the fee of the whole, and less by at most one unit for each part but one |
| `Fees.PriceIsRest` | x/eibc/types/fees.go:10-19 | an order has the price p if and only if p is positive and is what the eIBC fee and the rate's share leave of the amount |
| `Fees.DeliveryPays` | x/bridgingfee/ibc_module.go:86-105 | an accepted delivery moves the amount from escrow to receiver and the fee charged on to the collector; a refused one moves nothing |
| `Fees.FulfillerEarns` | x/eibc/keeper/fulfill.go:37-62 | who pays the price and is delivered the transfer earns the eIBC fee at an unchanged rate, and loses if and only if the delivery is refused or the bridging fee charged has risen by more than the eIBC fee |
| `Fees.CalcTargetPriceAmt` | x/eibc/types/fees.go:24-45 | the search returns the least amount from the target on whose price reaches it, for a fee that is not negative the least of all, or nothing if none does |
| `Fees.BudgetIsCovered` | x/bridgingfee/ibc_module.go:86-105 | delivery and fee conserve the total, and bring the receiver the hook's budget if and only if the delivery was accepted |
| `Fees.ForwardLeavesTheRest` | x/forward/hyperlane.go:44-79 | a forward, in the packet's denomination, leaves the receiver what it had before the packet if and only if the delivery was accepted or it costs nothing |
| `Fees.ForwardRefuses` | x/forward/hyperlane.go:44-60 | a forward is refused if and only if a denomination differs or amount and fee exceed the budget |
| `Fees.RefusedDeliveryIsForwarded` | x/delayedack/keeper/completion.go:116-124 | the failing case: after a refused delivery a forward can take the whole budget out of the receiver's own funds |

## Left out

- JSON, bech32 and the codec of the IBC packet: packet data is canonical, spelled otherwise, or unreadable, and the encoded
  IBC packet inside a stored record is a byte string, whose own parse errors are not modelled.
- Hashes: packet commitments and demand order ids are taken to be free of collisions.
- Core IBC, the modules below the middleware, hooks and the eIBC market: present through what they do to the state; their
  answers are arguments. Balances appear only in `Fees`, for one denomination, and orders without price and denomination.
- The environment of a run, that is channels, their ends and the canonical channel of each rollapp, does not change.
- Rollapp state updates and fraud proofs: finalized heights only rise, by a step of their own; forks come with any height.
- Transactions: a message can fail at any point, and then nothing of its transaction is kept; a packet message core IBC
  refuses leaves the state as it is; any other message makes one step or none. Whether
  a wrapper runs its contents, as an authz execution does and a proposal does not, is a part of the message.
- Which error is returned: an operation succeeds or fails, with the error text of a finalized packet as an argument.
- KeeperModel.Keeper.AfterEpochEnd: stated on states that satisfy the run invariant, because on a store whose packets are
  not under their own keys the loop need not end.
- KeeperModel.Keeper.ListRollappPackets: returns values; callers that change a packet first take a copy with its own cell.
- KeeperModel.Keeper.DemandOrderHandler: whether the market makes an order is an argument, and orders have no price.
- KeeperModel.Keeper.FulfillOrder: the payment from the source of funds to the recipient is not part of the state.
- AddressPages.PagesByAddress: addresses do not hold the zero byte, which the index's key encoding refuses.
- Messages.UnmarshalHook: inputs are at most 2^63 - 32 bytes long.
- PacketCodec.UnmarshalRecord: inputs are at most 2^63 - 32 bytes long, and the embedded IBC packet is not parsed.
- Fees.CalcTargetPriceAmt: the rate is valid.
- Nil and empty slices are the same; events, logs, gas and parameters other than those used are not modelled.
- Queries over gRPC, the command line, migrations, wiring, and the other modules of the hub.
