# Verified model of a peer-to-peer ledger

The system is a small ledger of messages kept by Go nodes that gossip messages and blocks,
mine proof-of-work blocks, pull each other's chains and queues, and prefer the longer chain,
or of two equally long ones the one with the smaller tip hash. It keeps no record of what a
node has seen: at-most-once relay, conservation of messages and agreement all follow from
strict ascent in the fork order, hash chaining and an ID index. This project states those
rules in Dafny and proves what they achieve, for all inputs, all runs of one node and all
runs of a network.

`dafny verify dfyconfig.toml` checks everything.

| file | what it holds |
|---|---|
| `GoText.dfy` | Go strings as bytes: order, UTF-8, white space |
| `Entities.dfy` | messages, blocks, headers, digests, status codes |
| `HeaderEncoding.dfy` | the JSON bytes that are hashed, and reading them back |
| `Models.dfy` | validation loops, fork choice, hash chaining |
| `Mempool.dfy` | the bounded queue and its reconciliation with a new chain |
| `Storage.dfy` | the chain store over shared message slices, and its file |
| `Node.dfy` | one node as a state machine; its invariant |
| `NodeRuns.dfy` | whole runs of one node, with crashes at any point |
| `Engine.dfy` | the engine class, gossip fan-out, peer rotation, synchronization |
| `Miner.dfy` | nonce search, one mining round, draining the queue |
| `Network.dfy` | N honest nodes and a network that delays, repeats and loses packets |
| `Convergence.dfy` | agreement by pulling, with a bound |
| `Flood.dfy` | how far one message spreads and when its gossip ends |
| `UnicodeText.dfy` | JavaScript strings against Go strings |
| `CanonicalJson.dfy` | the browser's hashed bytes are Go's |
| `Simulator.dfy` | the browser's rules against Go's |

How the pieces fit: the methods of `Mempools.Mempool`, `Storage.FileChainStorage` and
`Engine.GossipEngine` update fields and slices in place, in the order of the source, and
each is proved to do to the abstract state exactly what a function of `Nodes` (`Submit`,
`Append`, `Adopt`) says. All results about runs and networks are about those functions.

Conventions. The clock is an integer parameter that never goes back (one clock for the whole
network); `saves` says whether writing the file succeeds. The digest of a header is any
function to 64 lower-case hexadecimal digits. Freedom from collisions is nowhere built in:
where a result needs it, it is a hypothesis about the blocks of that run
(`Entities.NoCollision`), and `HeaderEncoding.BytesToHeaders` brings it down to the hashed
bytes. `Nodes.NoWorse(a, b)` means that a is b or is preferred to b. Relaying at most once
and the exactness of optimistic mining are proved without any such hypothesis.

A finding. The browser's validator and the Go validator are meant to be the same rules, but
`trim` in JavaScript and `strings.TrimSpace` in Go disagree on U+0085 and U+FEFF. A message
whose ID is a lone U+0085 is valid in the browser only, one whose ID is a lone U+FEFF in Go
only. `Simulator.ValidatorsDiffer` gives these two and `Simulator.ChainsDiffer` whole chains
with them; `Simulator.ValidatorsAgree` shows that
texts of this kind, and integers beyond those a browser holds exactly, are the only cause of
disagreement, and that in a chain which one side accepts they always cause it.

## Model

| member | source | states |
|---|---|---|
| `GoText.LessIrreflexive` | internal/models/block.go:138 | the byte-wise order that breaks ties never prefers a text to itself |
| `GoText.LessTransitive` | internal/models/block.go:138 | that order is transitive |
| `GoText.LessTotal` | internal/models/block.go:138 | of two different texts one comes first; tie-breaking always decides |
| `HeaderEncoding.ReadBackString` | internal/models/block.go:33-47 | an encoded string, escapes of RFC 8259 section 7 and of Go's HTML-safe mode included, reads back as the same text and leaves what follows untouched |
| `HeaderEncoding.ReadBackInt` | internal/models/block.go:36-44 | a decimal number followed by a non-digit reads back as itself |
| `HeaderEncoding.ReadBackTransaction` | internal/models/transactions.go:14-18 | an encoded message reads back with its ID, data and timestamp |
| `HeaderEncoding.ReadBackList` | internal/models/block.go:33-45 | a list of messages reads back element by element: no ["a,b"] becomes ["a","b"] |
| `HeaderEncoding.ReadBackHeader` | internal/models/block.go:35-45 | nothing of a header with valid text is lost in the hashed bytes |
| `HeaderEncoding.EncodeInjective` | internal/models/block.go:33-45 | two headers with valid text have the same hashed bytes if and only if they are equal |
| `HeaderEncoding.BrokenTextsEncodeAlike` | internal/models/transactions.go:21-26 | why messages must be valid UTF-8: two broken texts share an encoding |
| `HeaderEncoding.BytesToHeaders` | internal/models/block.go:45-47 | for blocks with valid text, no collision among hashed bytes means no collision among headers, and conversely |
| `Models.TargetMeans` | internal/models/block.go:97-99 | a hash meets a difficulty of d if and only if it begins with d zero digits |
| `Models.ValidateBlock` | internal/models/block.go:67-101 | the loop with its `seen` set accepts exactly the blocks that satisfy the declarative rules, distinct IDs among them; none whose hash does not begin with as many zeros as the difficulty says, and none at a difficulty outside 1 to 4 |
| `Models.ValidateChain` | internal/models/block.go:103-130 | the loop with its accumulated `seen` set accepts exactly the chains whose links are valid and in which no ID occurs twice anywhere |
| `Models.RepeatSpoilsChain` | internal/models/block.go:122-127 | an ID met again anywhere later makes the whole chain invalid, so stopping early is right |
| `Models.ChainMessagesValid` | internal/models/block.go:85-88 | every message of a valid chain is a valid message |
| `Models.ValidChainMonotone` | internal/models/block.go:78-80 | a chain valid now is valid at every later clock |
| `Models.GenesisValid` | internal/models/block.go:57-65 | the genesis block alone is a valid chain at every clock and permitted difficulty |
| `Models.IncrementalEqualsFull` | internal/storage/chainstorage.go:110-127 | checking a block against tip and ID index accepts it if and only if validating the whole longer chain does, length limit included |
| `Models.PrefixValid` | internal/models/block.go:103-130 | a valid chain without its tip is valid |
| `Models.BetterIrreflexive` | internal/models/block.go:132-139 | no chain is better than itself |
| `Models.BetterTransitive` | internal/models/block.go:132-139 | being better is transitive |
| `Models.BetterTotal` | internal/models/block.go:132-139 | of two valid chains without colliding headers exactly one is better if and only if they differ |
| `Models.HashDeterminesChain` | internal/models/block.go:35-47 | two rightly hashed and linked chains with the same tip hash are equal, absent collisions |
| `Models.TipDeterminesChain` | internal/models/block.go:103-130 | two valid chains have the same tip hash if and only if all their blocks agree, absent collisions |
| `Models.ValidChainTexts` | internal/models/block.go:84-96 | everything a valid chain hashes is valid UTF-8 |
| `Models.TipDeterminesChainBytes` | internal/models/block.go:35-47 | the same for chains hashed over encoded bytes, from the absence of collisions among those bytes alone |
| `Mempools.SortById` | internal/mempool/mempool.go:53 | the messages come out in strictly ascending byte order of ID, none lost or added |
| `Mempools.ListingUnique` | internal/mempool/mempool.go:46-55 | a queue has one sorted listing: map iteration order does not show |
| `Mempools.Mempool.TryAdd` | internal/mempool/mempool.go:24-38 | refuses invalid, known and surplus messages in that order and changes nothing then; files the message otherwise |
| `Mempools.Mempool.GetPending` | internal/mempool/mempool.go:46-55 | returns the sorted listing of the queue |
| `Mempools.Mempool.Values` | internal/mempool/mempool.go:49-52 | lists each message once, in any order |
| `Mempools.Mempool.Remove` | internal/mempool/mempool.go:56-62 | drops exactly the given IDs |
| `Mempools.Mempool.ConfirmedIds` | internal/mempool/mempool.go:68-73 | collects exactly the IDs of a chain |
| `Mempools.Mempool.AddOrphans` | internal/mempool/mempool.go:80-86 | files the old chain's messages over a queue, passing over confirmed IDs |
| `Mempools.Mempool.PrepareReorg` | internal/mempool/mempool.go:65-95 | without side effects, refuses exactly when the reconciled queue would exceed capacity and otherwise lists it, each message once |
| `Mempools.Mempool.Replace` | internal/mempool/mempool.go:96-103 | installs the given messages and nothing else |
| `Mempools.OverlayFacts` | internal/mempool/mempool.go:74-86 | the reconciled IDs are those kept and those of the old chain that the new one does not confirm, each filed under its own ID |
| `Mempools.OverlayOrigin` | internal/mempool/mempool.go:74-86 | every reconciled message was pending or in the old chain, unaltered |
| `Mempools.OverlayRebuilds` | internal/mempool/mempool.go:74-79 | refiling any enumeration of a queue rebuilds that queue less what is confirmed |
| `Storage.CloneChain` | internal/storage/chainstorage.go:87-94 | a copy with the same content whose slices are all new |
| `Storage.FileChainStorage.Open` | internal/storage/chainstorage.go:40-83 | starts a missing file with the genesis block, accepts exactly a valid chain, and leaves an unusable file as it was |
| `Storage.FileChainStorage.IndexTransactions` | internal/storage/chainstorage.go:164-171 | the index becomes the chain's ID set |
| `Storage.FileChainStorage.GetChain` | internal/storage/chainstorage.go:96-100 | a snapshot equal to the chain that shares no slice with it |
| `Storage.FileChainStorage.GetLatestBlock` | internal/storage/chainstorage.go:102-108 | the tip, in a slice of its own |
| `Storage.FileChainStorage.TransactionExists` | internal/storage/chainstorage.go:158-162 | the index answers for the chain |
| `Storage.FileChainStorage.SaveUnlocked` | internal/storage/chainstorage.go:181-214 | the file holds the new chain or, if the save fails, the old content |
| `Storage.FileChainStorage.CheckBlock` | internal/storage/chainstorage.go:110-127 | accepts exactly the blocks that make the chain longer and valid; stale are exactly the right blocks that do not name tip and height, invalid exactly the wrong ones and those that precede the tip or repeat a confirmed ID |
| `Storage.FileChainStorage.AddBlock` | internal/storage/chainstorage.go:110-137 | appends exactly if the longer chain is valid and can be saved, with the refusals told apart, and keeps chain, index and file consistent in slices that nobody else holds; a refusal changes no field |
| `Storage.FileChainStorage.CommitBlock` | internal/storage/chainstorage.go:128-136 | file, chain and index take the block together or not at all |
| `Storage.FileChainStorage.ReplaceChain` | internal/storage/chainstorage.go:139-156 | replaces the live chain only by a valid better one and leaves the caller's chain readable as before; a refusal changes no field |
| `Storage.ScribbleElsewhere` | internal/storage/chainstorage.go:87-108 | any single write to a slice the store does not hold leaves chain, index, file and validity as they were |
| `Storage.OutcomeExact` | internal/storage/chainstorage.go:110-156 | what a call makes of the chain: a block passed is appended exactly if that is valid, a chain passed is taken exactly if valid and better, each if it can be saved |
| `Storage.CallersCannotReachIn` | internal/storage/chainstorage.go:87-156 | whatever a caller does next with any block that ever went in or came out (copies, passes on, overwrites), the chain becomes exactly what the call asked for as the blocks read at that moment, and the store shares no slice with any of them afterwards |
| `Storage.AnySession` | internal/storage/chainstorage.go:87-156 | the same for any sequence of calls and writes: the store stays valid and apart from all blocks its callers hold, and its chain never gets worse |
| `Storage.StaysApart` | internal/storage/chainstorage.go:87-108 | a call that leaves the store with slices it had or with new ones, as every engine method here promises, keeps it apart from what callers hold |
| `Nodes.SubmitFacts` | Gossip_Engine/gossip.go:179-196 | a message is accepted if and only if it is valid, its ID unknown and fewer than 1000 are pending; its ID becomes known, nothing else does, and the invariant is kept |
| `Nodes.AppendStatusExact` | internal/storage/chainstorage.go:110-137 | a block is accepted if and only if it makes the longer chain valid and can be saved; stale, invalid and unsaved ones are told apart exactly |
| `Nodes.AppendFacts` | Gossip_Engine/gossip.go:202-226 | an accepted block adds exactly its IDs to the known ones, extends the chain at its own index, and the invariant is kept |
| `Nodes.ReorgFacts` | internal/mempool/mempool.go:65-95 | the reconciled queue holds valid messages under exactly the known IDs that the new chain does not confirm |
| `Nodes.AdoptFacts` | Gossip_Engine/gossip.go:239-260 | a chain is adopted if and only if it is better, valid, saved and leaves at most 1000 messages pending; it adds exactly its IDs to the known ones, orphans return to the queue, and the invariant is kept |
| `Nodes.StepKeepsInv` | Gossip_Engine/gossip.go:179-260 | on arbitrary input, at any later clock and across crashes: chain valid, IDs unique, queue valid, bounded and disjoint from the chain, file equal to the chain |
| `Nodes.StepConservesIds` | Gossip_Engine/gossip.go:179-260 | short of a crash, known IDs after a step are exactly those before and those of the accepted message, block or chain |
| `Nodes.StepAscends` | Gossip_Engine/gossip.go:202-260 | the chain changes only for a better one, and exactly then the epoch moves by one |
| `Nodes.RestartKeepsInv` | internal/storage/chainstorage.go:40-83 | a process started on the file an old one left satisfies the invariant, with that chain and an empty queue |
| `NodeRuns.RunKeepsInv` | Gossip_Engine/gossip.go:179-260 | the invariant holds in every state of every run |
| `NodeRuns.RunAscends` | internal/models/block.go:132-139 | through forks, reorganizations and restarts the chain never gets worse |
| `NodeRuns.AppendsAscend` | Gossip_Engine/gossip.go:200-226 | blocks appended, and so relayed, have strictly rising indices over a whole run: at most one per height, none twice, without a record of what was seen |
| `NodeRuns.RunConservesIds` | Gossip_Engine/gossip.go:179-260 | between restarts no ID is ever lost and none appears from nowhere |
| `NodeRuns.AcceptedOnce` | Gossip_Engine/gossip.go:179-196 | a process accepts an ID at most once, reorganizations included |
| `NodeRuns.CrashSafety` | internal/storage/chainstorage.go:128-136 | at every moment, in the middle of a commit too, the file holds a valid chain no worse than any the node served, and a restart at any later clock serves it |
| `NodeRuns.SolvedIsValid` | internal/miner/miner.go:67-72 | a solved block passes block validation if and only if the chain is below its height limit (and the clock not before genesis), and always extends its tip |
| `NodeRuns.EpochTellsChange` | Gossip_Engine/gossip.go:202-260 | within a process two states have the same epoch, the number of signals closed so far, if and only if they have the same chain; a changed chain is a better one |
| `NodeRuns.OfferExact` | internal/miner/miner.go:59-73 | a block solved on one state and offered in a later one is committed if and only if the chain is the same (with room and a working save), and stale if and only if it is not (with room) |
| `NodeRuns.OptimisticMiningExact` | internal/miner/miner.go:59-73 | the same over whole runs of arbitrary steps between taking the work and offering the block; the chain is the same if and only if the epoch is |
| `Engine.EnqueueFacts` | Gossip_Engine/gossip.go:159-170 | offering sends to peers only adds sends, all of them while there is room |
| `Engine.GossipedExactly` | Gossip_Engine/gossip.go:83-96 | of a random arrangement of n peers the first min(2, n) are picked, in its order, as far as 128 queued sends allow |
| `Engine.RotationVisitsAll` | Gossip_Engine/gossip.go:305-310 | a pass visits every peer exactly once, in the order start, start + 1, … around |
| `Engine.FirstExactlyOnce` | Gossip_Engine/gossip.go:305-310 | in any n passes in a row each of n peers comes first exactly once |
| `Engine.GossipEngine.Broadcast` | Gossip_Engine/gossip.go:159-170 | queues the message for the first min(2, n) peers of the arrangement drawn, in its order, as far as there is room for 128 sends, and touches no send queued before |
| `Engine.GossipEngine.Forward` | Gossip_Engine/gossip.go:159-170 | while there is room that is two different peers, or the only one |
| `Engine.GossipEngine.SubmitTransaction` | Gossip_Engine/gossip.go:179-196 | is the submission step; an accepted message is queued for two different peers (or the only one) while there is room, a refused one leaves the sends as they were |
| `Engine.GossipEngine.Renew` | Gossip_Engine/gossip.go:214-215 | the current signal is closed and an open one takes its place for the new chain; every earlier one stays closed |
| `Engine.GossipEngine.SignalTellsChange` | Gossip_Engine/gossip.go:214-237 | in every state of the engine, the signal handed out in any earlier turn is closed if and only if the chain is no longer the one it was handed out with |
| `Engine.GossipEngine.HandleIncomingBlock` | Gossip_Engine/gossip.go:202-226 | is the append step, accepting exactly blocks that make a valid chain and can be saved; an appended block is queued for two different peers (or the only one) while there is room, the signal is closed and another opened, and a stale block asks for a synchronization; the store's slices are its own |
| `Engine.GossipEngine.MiningWork` | Gossip_Engine/gossip.go:228-237 | a consistent snapshot: tip, first 100 messages in ID order, and the signal that stands for this chain, open |
| `Engine.GossipEngine.AdoptChain` | Gossip_Engine/gossip.go:239-260 | is the adoption step; closes the signal and opens another if and only if the chain is adopted; the store's slices are its own |
| `Engine.GossipEngine.ReadState` | Gossip_Engine/gossip.go:335-342 | in one snapshot every known ID is in exactly one of chain and queue |
| `Engine.SubmitAllConcat` | Gossip_Engine/gossip.go:328-330 | submitting one list after another is submitting both in order |
| `Engine.SubmitAllOne` | Gossip_Engine/gossip.go:328-330 | and submitting a list of one is submitting that message |
| `Engine.SubmitAllKnows` | Gossip_Engine/gossip.go:328-330 | every valid message of a submitted list is known afterwards, unless 1000 were pending at its turn |
| `Engine.GossipEachFacts` | Gossip_Engine/gossip.go:328-330 | a submitted list is gossiped once for each message accepted, to two peers while there is room, and nothing but its messages is |
| `Engine.PassHeeds` | Gossip_Engine/gossip.go:311-332 | after a pass no valid chain heard that fitted at its turn is better than the node's, and every valid message heard is known unless the queue was full at its turn |
| `Engine.GossipEngine.ResolveConflicts` | Gossip_Engine/gossip.go:294-333 | hears exactly the first peers from the one that is due, around; in each turn considers the chain first and then submits up to 1000 messages in order; afterwards no valid chain heard that fitted is better than the node's, every valid message heard is known unless the queue was full at its turn, and exactly the messages accepted were gossiped; signals stay in step, the store's slices are its own, and the next pass starts one peer further |
| `Engine.Perform` | Gossip_Engine/gossip.go:179-333 | any mixture of submissions, pushed blocks and synchronization passes happens one by one as the steps say; the engine stays valid, its signals tell of every change of chain, and its store's slices are its own |
| `Miner.Solve` | internal/miner/miner.go:32-57 | terminates without wrapping the nonce, stops at the first interruption, at the first nonce whose hash begins with as many zeros as the difficulty says, or after the last nonce, and has passed over no such nonce |
| `Miner.SolveUninterrupted` | internal/miner/miner.go:32-57 | left alone it finds the least nonce whose hash begins with as many zeros as the difficulty says, and reports exhaustion if and only if there is none |
| `Miner.SolvedAccepted` | internal/miner/miner.go:59-73 | a solved template is accepted where it was made if and only if there is room and it can be saved |
| `Miner.OfferTaken` | internal/miner/miner.go:59-73 | a solved block is committed if and only if the signal taken with its work is still open (with room and a working save), and stale if and only if it has been closed (with room) |
| `Miner.CommittedMeans` | internal/miner/miner.go:67-72 | a committed block stands on the tip it was mined on, with the next index, the later of clock and tip time, and the first 100 pending messages in ID order |
| `Miner.MineOnce` | internal/miner/miner.go:59-73 | a whole round while others make the engine do anything: it commits a block only on the chain the work came from, breaks off or is refused as stale only if that signal was closed and the chain is another, is canceled only by a shutdown, changes nothing otherwise, and succeeds if left running with room, a working save and a nonce to be found |
| `Miner.RoundEffect` | internal/miner/miner.go:59-73 | a successful round moves exactly the first 100 messages of the sorted listing from the queue to the chain |
| `Miner.Drained` | Gossip_Engine/gossip.go:228-237 | after k successful rounds max(0, n - 100k) of n messages are pending, the height grew by min(k, n/100 rounded up), and the new blocks concatenate to the first messages in ID order |
| `Network.RelaysExact` | Gossip_Engine/gossip.go:179-226 | a node forwards the message or block it was handed exactly if that changed it |
| `Network.BlockFindsItsChain` | Gossip_Engine/gossip.go:202-226 | among honest nodes without collisions a pushed block is appended only to the very chain its miner extended |
| `Network.NodeStepOk` | Gossip_Engine/gossip.go:179-260 | whatever honest packet a node takes, its chain stays among those mined and its messages among those submitted |
| `Network.NetStepKeepsInv` | Gossip_Engine/gossip.go:159-333 | every step of the network, stale packets and crashes included, keeps the network invariant |
| `Network.FirstNetInv` | internal/storage/chainstorage.go:57-64 | a network of new nodes satisfies it |
| `Network.ServedCanArrive` | Gossip_Engine/gossip.go:311-332 | what a peer has served, its chain or a pending message, can arrive at any node at any later time |
| `Network.RunProvenance` | Gossip_Engine/gossip.go:202-226 | in every run of an honest network without collisions the invariant holds at every point |
| `Network.NodeProvenance` | internal/miner/miner.go:59-73 | every chain of a node was mined as a whole, so were its beginnings, and every message in a chain or queue is one a client submitted, data and timestamp included |
| `Convergence.QuietProgress` | Gossip_Engine/gossip.go:239-260 | once nothing is mined or submitted, every step that changes a node strictly lowers the measure: better chains and IDs still ahead, over all nodes |
| `Convergence.TotalBound` | Gossip_Engine/gossip.go:294-333 | the measure is at most nodes x (mined chains + submitted IDs) |
| `Convergence.FewChanges` | Gossip_Engine/gossip.go:239-260 | once nothing is mined or submitted, under every schedule without crashes, saves failing or not and however much was ever submitted, nodes change at most as often as the measure says |
| `Convergence.ReorgFits` | internal/mempool/mempool.go:87-89 | with at most 1000 IDs ever submitted no reorganization is refused for capacity |
| `Convergence.AdoptsUnlessNotBetter` | Gossip_Engine/gossip.go:239-260 | absent collisions a chain of the system changes a node if and only if it is better than the node's and its reorganization fits the queue |
| `Convergence.AcceptsUnlessKnown` | Gossip_Engine/gossip.go:179-196 | a valid message changes a node if and only if its ID is unknown there and the queue is not full |
| `Convergence.FixpointIffConverged` | Gossip_Engine/gossip.go:294-333 | absent collisions, over a strongly connected pull graph, all nodes have one chain and the same pending IDs if and only if no pull changes anything and there is room for what each could bring; no bound on what was ever submitted |
| `Convergence.FixpointWithinCap` | Gossip_Engine/gossip.go:294-333 | while at most 1000 IDs were ever submitted there always is room, so agreement is exactly the absence of effective pulls |
| `Convergence.AgreedChainIsBest` | internal/models/block.go:132-139 | a chain that all nodes have is the best ever mined |
| `Convergence.IdleRoundConverged` | Gossip_Engine/gossip.go:294-333 | a round of delayed pulls in which nothing changes finds and leaves the network in agreement if and only if there was room |
| `Convergence.ConvergenceBound` | Gossip_Engine/gossip.go:294-333 | while nothing is mined or submitted and nobody crashes, and absent collisions, all rounds but a bounded number change nothing; such a round is settled if and only if there was room, which there always is up to 1000 submitted IDs |
| `Convergence.AgreementKept` | Gossip_Engine/gossip.go:239-260 | absent collisions, agreement on the chain lasts in every run until another block is committed, whatever packets, crashes, failed saves and submissions there are |
| `Convergence.OnlyMinersMine` | internal/miner/miner.go:59-73 | and none is committed while no miner offers one |
| `Convergence.HonestNetworkAgrees` | Gossip_Engine/gossip.go:294-333 | from new nodes, through any run without collisions that ends quietly, enough rounds of pulls contain one that changes nothing, which is settled if and only if there was room, and always if at most 1000 IDs were submitted |
| `Flood.BroadcastTargets` | Gossip_Engine/gossip.go:159-170 | the sends a broadcast queues are to the first peers of the arrangement: min(2, n) while there is room, fewer otherwise |
| `Flood.NewSendsExact` | Gossip_Engine/gossip.go:124-170 | acceptance queues one send for each target, with three attempts; nothing else queues any |
| `Flood.EventFacts` | Gossip_Engine/gossip.go:120-196 | an event makes no node forget an ID, queues at most two sends for each node that comes to know it, and each request uses up an attempt |
| `Flood.FloodBound` | Gossip_Engine/gossip.go:120-196 | one ID causes at most 2N sends among N running nodes and at most 6N requests, retries included, so its flood ends |
| `Flood.AcceptedOncePerNode` | Gossip_Engine/gossip.go:179-196 | no node accepts an ID twice, whoever offers it |
| `UnicodeText.DecodeEncode` | docs/simulator-core.js:17 | what `TextEncoder` makes of a string is valid UTF-8 and determines the string |
| `UnicodeText.EncodeDecode` | docs/simulator-core.js:17 | every valid UTF-8 text is the encoding of a string |
| `UnicodeText.AsciiOrdersAlike` | docs/simulator-core.js:74 | on hashes, string comparison in both languages agrees |
| `UnicodeText.JsLessOrder` | docs/simulator-core.js:74 | string comparison by UTF-16 units is a strict total order |
| `UnicodeText.OrdersDiffer` | docs/simulator-core.js:74 | on other text it need not |
| `UnicodeText.BlankAgrees` | docs/simulator-core.js:43-44 | `trim` and `strings.TrimSpace` disagree on a text exactly if it is white space for one language only |
| `UnicodeText.OddTextsExist` | docs/simulator-core.js:43-44 | there are such texts on both sides |
| `CanonicalJson.EveryBlockHasJsForm` | docs/simulator-core.js:9-19 | Go blocks with valid text and browser blocks correspond one to one |
| `CanonicalJson.OutOfText` | docs/simulator-core.js:6-7 | quoting and then replacing yields, for every text, the escapes Go writes |
| `CanonicalJson.CanonicalIsEncode` | docs/simulator-core.js:6-19 | the browser hashes exactly the bytes that Go hashes |
| `Simulator.HashIsCalculateHash` | docs/simulator-core.js:9-19 | both hashes of a block agree |
| `Simulator.SameTransaction` | docs/simulator-core.js:42-46 | both languages accept the same messages, and differ only on oddly blank texts and inexact integers |
| `Simulator.SameLimit` | docs/simulator-core.js:59 | the limit in fractional seconds and the one in whole seconds admit the same timestamps |
| `Simulator.ContextImplies` | docs/simulator-core.js:55-68 | index cap, previous-hash length, earliest timestamp and distinct IDs within a block follow from the checks that the browser does make |
| `Simulator.ValidateJsChain` | docs/simulator-core.js:47-71 | the browser's loop with its `seen` set accepts exactly the chains that satisfy its declarative rules |
| `Simulator.ValidatorsAgree` | docs/simulator-core.js:47-71 | browser and Go accept the same chains at difficulty 2 on the common domain; a chain accepted by one is accepted by the other if and only if it is in that domain |
| `Simulator.ValidatorsDiffer` | docs/simulator-core.js:42-46 | each side accepts a message that the other refuses |
| `Simulator.ChainsDiffer` | docs/simulator-core.js:47-71 | there are whole chains that one side accepts and the other refuses, for each cause on its own: a text blank for one language only (either way round), an integer beyond the safe ones |
| `Simulator.SamePreference` | docs/simulator-core.js:72-75 | both fork choices agree on valid chains |
| `Simulator.SameReconciliation` | docs/simulator-core.js:76-80 | the browser's pending IDs after a change of chain are those of an accepted `PrepareReorg`, each once, sorted in strictly ascending UTF-16 order |

## Left out

- HTTP handlers, clients, timeouts, backoff, JSON decoding and request limits: plumbing. What workers can do to a message (deliver, repeat up to three times, lose) is in `Flood.dfy`; delay and reordering without limit are in `Network.dfy`.
- SHA-256 itself and how long mining takes: the digest is any function to 64 hexadecimal digits.
- `Storage.FileChainStorage.SaveUnlocked`: encoding, the size limit, and writing, syncing and renaming the temporary file are one yes or no (`saves`); which of them failed makes no difference to the store.
- Temporary file names, permissions, directory sync and the 64 MiB limit: the file is one cell replaced at the rename, and everything that can fail before it is the parameter `saves`.
- A `null` message list where Go tells it from an empty one: a list is a sequence, so a chain whose genesis block carries `null` is not told from the regular one.
- Overlapping locks: each lock-protected section is one step. `HandleIncomingBlock` reads the clock twice, for its own check and for the store's; the model reads it once for both. A second synchronization that finds one under way returns at once and is not modelled.
- `Mempools.Mempool.GetPending`: `sort.Slice` is an insertion sort here; IDs differ, so any sort gives the same listing.
- The outer slice of a chain is a sequence value; sharing is modelled for the message slices inside the blocks, which is where callers could reach.
- `Engine.GossipEngine.ResolveConflicts`: the replies of peers and how many of them are reached before the deadline are inputs, and all replies of one pass are judged at one clock with one save outcome; `Network.dfy` lets clock and outcome differ from packet to packet.
- `Miner.Solve`: what a look at the two channels finds before a nonce is an arbitrary function of the nonce; yielding to the scheduler every 1024 nonces has no effect on the result.
- `Miner.MineOnce`: what others do during the search is done in one stretch before it. The search touches nothing they touch, so only its looks at the channels could tell; these may be anything, except that they find the channel closed only if it has been.
- The browser's `mine` is `Miner.Solve` without an end to its counter; its animation and node objects (`docs/script.js`) are not modelled. Objects with members in another order or with extra members, strings with lone surrogates and values of other types are outside the browser model; date arithmetic is over the reals.
- Startup, flags, signals, peer files, the transaction lookup by ID, logging, scripts and container files: configuration, without an invariant of their own.
- Liveness under a permanently full queue or failing disk, agreement on the payload of a reused ID, finality and malicious majorities: the system does not promise these. Agreement is on chains and on pending IDs.
