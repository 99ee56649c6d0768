# Dafny model of the chain state of a Litecoin 0.8 node

This project models how the node in this repository keeps its view of the block chain, and proves
that it keeps it right: which coins are unspent, which chain is best, how blocks are undone when
another branch wins, and how the records behind all this are stored. Each module stands for one
component.

- `Coins`, `Blocks`, `Ledger`, `Money`: coin records, transactions and blocks; what connecting and
  disconnecting a block means for the set of unspent outputs; where money comes from.
- `CoinsView`: a stack of write-back caches over the database, as objects.
- `Acceptance`: what is accepted, in numbers: when a transaction or a block may be connected, what that
  does to each output, and when a new output may be spent.
- `CleanUndo`: what it means that disconnecting a block is reported clean.
- `BlockConnect`: the methods of `CTransaction` and `CBlock` on such a stack, with 64-bit sums whose
  overflow is excluded.
- `BlockIndex`, `ChainReplay`, `ForkSearch`, `Chain`, `BestChain`: the block tree, the replay of a
  chain from genesis, and the chain state machine (`SetBestChain`, `ConnectBestBlock`,
  `FindBlockByHeight`, `AddToBlockIndex`).
- `Restart`: loading the chain state again from its database and block index.
- `Storage`: the records of a chain fit their byte formats.
- `Merkle`, `Bits`, `PartialMerkle`: Merkle trees, branches and the partial tree of BIP 37.
- `CheckQueue`: the queue on which a master and its workers check scripts, as an object and as a state
  machine whose steps are the critical sections.
- `AddrTables`, `AddrMan`: the address manager and its `Check_`.
- `MemPool`: the memory pool with its index of spent outpoints.
- `MultiSig`: the greedy loop of OP_CHECKMULTISIG, and how its answer is read.
- `Bignum`, `Base58`, `VarInt`, `Amount`, `ScriptCompressor`, `CoinsRecord`, `UndoRecord`: codecs.
- `Compact`, `Retarget`, `MedianTime`: compact targets, difficulty and block times.

Two views of the coins are compared by which outputs are available and with what data: a pruned
record and an absent one mean the same. Txids are opaque identifiers. The predicate `GoodView` in
`Chain` says that a view shows the replay of the blocks from genesis to its best block: the same
outputs are unspent, and each record is the one of the replay or, when it has been to the database and
back, what that one reads back as. It is part of `ChainState.Valid`, which every method of the state
machine keeps, so it holds after any sequence of calls; it holds of the database alone, too, for the
block that the database names. Without negative versions on the chain the
records are equal (`ChainReplay.ExactlyShown`). `ChainState.Coherent` adds that the view follows `pindexBest` and that `pnext`
marks its chain.

What is not decided by the code modelled here enters as a parameter: hash functions, signature checks,
header checks, the curve behind uncompressed keys, bucket hashes, clocks, random draws, disk space, and
the success of each read, write and flush. `Chain.World` holds what a switch of the best chain meets:
which blocks and undo data can be read, the verdicts on headers and scripts, which writes succeed. So
outcomes are stated exactly: `Chain.ChainState.SetBestChain`, `BestChain.ConnectBestBlock` and
`BestChain.AddToBlockIndex` succeed if and only if those conditions hold.

## What does not hold

- Flushing a cache that never looked at its best block may make the cache below forget its own
  (`CoinsView.FlushForgetsBestBlock`). `Flush` states exactly when the best block survives: when the
  cache hands one down, or the layer two below has the same. The switch reads the best block first and
  so is not affected.
- After a switch that aborted behind its flush (src/main.cpp:1861-1866) the coin view is ahead of
  `pindexBest`, and switching to the same block again leaves a stale `pnext`
  (`Chain.LinksLostAfterAbort`); loading the chain state again mends it (`Restart.StartOver`).
  `Chain.LinksFollowIff` gives the exact condition, and
  `Chain.ChainState.SetBestChain` says that its outcome depends on that condition alone.
- `Good_` and `Attempt_` break what `Check_` asks of the times when called with a time that is not
  positive, or negative (`AddrMan.TimesLost`); their contracts say exactly when. All callers leave the
  time to its default, the adjusted time (src/addrman.h:443 and 454; src/main.cpp:3312 and 3317,
  src/net.cpp:482), so it takes a clock set before 1970.
- `Check_` looks addresses up with an operator that inserts missing ones with id 0 (src/addrman.cpp:434-492),
  so it passes a table whose only fault is that the address of id 0 is missing
  (`AddrTables.MissingAddressPasses`). Its contract says what it decides, and that it is wrong about the
  table it is given exactly then. No operation produces such a table.
- A negative version or height does not survive the stored record (`CoinsRecord.RecordRoundTrip`), a
  negative version does not survive the undo file, and an undo entry without a height does not carry a
  version (`UndoRecord.UndoRoundTrip`). A flush keeps all records bit for bit exactly when none of those
  written is negative there (`CoinsView.WrittenShows`). `ChainReplay.MinusOneComesBackAs127` is a block
  whose record changes; the correction at src/main.cpp:1532-1533 is what keeps its disconnection clean.
- A refused partial Merkle proof is reported as root zero and still hands back its matches
  (`PartialMerkle.RefusedButMatched`). So a proof that extracts to the root of a block vouches for its
  matches exactly when that root is not zero, or no proof is looked at (`PartialMerkle.SoundIff`).
- The unit test at src/test/compress_tests.cpp:44 expects 0x1406f40 for 100 million coins; the code gives
  0x5f5e100, and 0x1406f40 is the code of 21 million coins (`Amount.Examples`).
- The replacement code in `CTxMemPool::accept` is never reached: the first conflict returns
  (src/main.cpp:690-693).
- `SelectTried` exchanges the entry it draws with the one at place `i` and then remembers the position
  the entry came from (src/addrman.cpp:136-143). The position returned holds the entry judged oldest
  exactly when that was drawn from the place of its own turn; `AddrTables.YoungerReturned` has a
  bucket and draws for which a younger entry is returned.

## Statements completed

At these places a blank line stands where a statement belongs. The model completes it so:

- src/main.cpp:1540: inputs are restored only for a transaction that is not the coinbase, `i > 0`.
- src/main.cpp:1549: the record of the spent transaction is read if the view has it.
- src/main.cpp:1270: `ConnectBestBlock` returns success when the best candidate is no better.
- src/main.cpp:2443: a match is recorded at height zero when the flag is set.
- src/main.cpp:2479: a proof is refused for more transactions than one per 60 bytes of a block of
  1,000,000 bytes.
- src/main.h:753: the undo data of a block is the list `vtxundo` of the undo data of its transactions.
- src/checkqueue.h:86: a thread waits on its condition variable between the two changes of `nIdle`.
- src/script.cpp:1814: an uncompressed key is short-formed only if it is fully valid.

## Model

| member | source | states |
|---|---|---|
| Coins.Cleanup | src/main.h:842-847 | popping null outputs changes no output that is available |
| Coins.SpendCoins | src/main.h:979-993 | fails exactly for an output that is not there; otherwise gives the record and undo entry of `Spend` |
| Coins.SpendRemovesOne | src/main.h:979-993 | spending takes out that output and leaves every other one, with its data, and a cleaned record |
| Coins.SpendUnspend | src/main.h:979-993 | the undo entry puts the record back bit for bit, also when spending emptied it |
| Blocks.CheckTransaction | src/main.cpp:552-598 | accepts exactly the transactions with inputs and outputs, amounts and their sum in range, distinct inputs, and null inputs only in a coinbase |
| Blocks.CheckBlock | src/main.cpp:2091-2165 | accepts exactly the blocks with one coinbase, in front, valid transactions and distinct txids |
| Blocks.AllTxidsUnique | src/main.cpp:2091-2165 | the set of txids tells whether two transactions of a block share one |
| Ledger.SpendAllSucceeds | src/main.cpp:1363-1379 | the assertion in `UpdateCoins` never fires: distinct inputs that are available beforehand can all be spent one after the other |
| Ledger.UndoSpentInput | src/main.cpp:1545-1569 | restoring an input undoes spending it, cleanly, whether the spent record was kept pruned or dropped, and whether record and undo entry were stored in between or not |
| Ledger.UndoSpentAll | src/main.cpp:1545-1569 | restoring the inputs of a transaction from last to first undoes spending them all, up to what storing records and undo entries loses |
| Ledger.ConnectTxsNoneLive | src/main.cpp:1646-1654 | no transaction of a block creates outputs for a txid that is live: this follows from the BIP 30 rule and unique txids |
| Ledger.DisconnectConnectedTxs | src/main.cpp:1497-1582 | disconnecting the transactions of a block gives back the unspent set before them, also for chains of spends inside the block and with stored records and undo data |
| Ledger.DisconnectInvertsConnect | src/main.cpp:1497-1582 | `DisconnectBlock` inverts `ConnectBlock` and reports clean, from any map that shows the connected set and any undo data that shows the one produced: each record or entry is the original or what that reads back as |
| Ledger.ConnectBlockSame | src/main.cpp:1616-1719 | what a block does depends on the unspent set alone: same verdict, same fees, same undo data and same set afterwards |
| Ledger.ConnectBlockShows | src/main.cpp:1616-1719 | a block is accepted with the same fees from a map and from any map that shows it, and the resulting set and undo data show the others again |
| Ledger.ShowsBothWays | src/main.h:915-976 | maps that show each other have the same unspent records, since storing a record twice changes it no further |
| Ledger.StoredUndosShow | src/main.h:716-733 | undo data from two views of the same set is the same once it is stored |
| Ledger.RemoveConnectedOutputs | src/main.cpp:1522-1538 | the outputs of a connected transaction are found as expected, after the correction of a negative version, and taken out |
| Ledger.UnspendShows | src/main.cpp:1545-1569 | the record restored from a stored or unstored remainder and undo entry is the spent one or what that reads back as |
| Money.TotalShows | src/txdb.cpp:12-17 | maps that show the same unspent outputs, whether a record is pruned, absent, fresh or read back, have equal value |
| Money.ConnectTxsTotal | src/main.cpp:1674-1713 | unspent value plus collected fees grows by the coinbase outputs alone |
| Money.ConnectBlockTotal | src/main.cpp:1674-1719 | a block raises the unspent value by at most the subsidy of its height |
| Money.SubsidySumByEras | src/main.cpp:1084-1091 | a bound on all subsidies up to any height, era by era |
| Money.SubsidiesBelowMaxMoney | src/main.cpp:1084-1091 | all subsidies together leave at least one first subsidy below `MAX_MONEY` |
| Money.ValueInBounded | src/main.cpp:1336-1346 | distinct available inputs are never worth more than the whole unspent set |
| Money.SubsidyFalls | src/main.cpp:1084-1091 | the subsidy never rises with the height and at least halves from era to era |
| Money.SubsidyEnds | src/main.cpp:1084-1091 | a height has no subsidy exactly from 3,600,000 on |
| Acceptance.ValidTransactionMeans | src/main.cpp:552-598 | in numbers: amounts and their sum up to 100 million coins, as many different outpoints as inputs, the null outpoint only alone |
| Acceptance.ValidBlockMeans | src/main.cpp:2091-2165 | in numbers: valid transactions, the first and only the first spends the null outpoint alone, as many different txids as transactions |
| Acceptance.CheckInputsIff | src/main.cpp:1414-1492 | an ordinary transaction passes exactly when its inputs are available, ten blocks deep if from a coinbase, and worth at least its outputs and at most 100 million coins; a fee of zero passes |
| Acceptance.UpdateCoinsMeans | src/main.cpp:1363-1379 | what connecting a transaction does to every output there is: its own appear, those it spends go, all others stay with their data |
| Acceptance.RecordsAfter | src/main.h:836 | the record of a connected transaction has its outputs, version and height and is a coinbase record exactly for a coinbase; other records keep theirs |
| Acceptance.SpendingNewOutput | src/main.cpp:1433-1436 | with all else in order, spending an output of a connected transaction passes exactly when that is no coinbase or lies ten blocks back |
| Acceptance.ConnectTxIff | src/main.cpp:1674-1713 | an ordinary transaction connects exactly when its inputs may be spent and pay for its outputs, a coinbase always, and the fees grow by the difference |
| Acceptance.BlockAcceptedIff | src/main.cpp:1616-1719 | a valid block that overwrites nothing and whose transactions connect is accepted exactly when the unspent value grows by at most 500 coins halved once for every 100,000 blocks |
| Acceptance.PassesIff | src/main.cpp:1616-1719 | a block passes on its chain exactly when the replay of its parent exists and the block is accepted on top of it |
| CleanUndo.UnspendIff | src/main.cpp:1545-1569 | restoring an output is reported clean exactly when spending it again gives the same record and entry |
| CleanUndo.UndoInputIff | src/main.cpp:1545-1569 | one turn of the restoring loop is clean exactly when it restores a sound record from which spending leads back |
| CleanUndo.UndoAllIff | src/main.cpp:1545-1569 | restoring the inputs of a transaction is clean exactly when spending them again gives the same coins and undo data |
| CleanUndo.RemoveOutputsIff | src/main.cpp:1522-1538 | taking out the outputs of a transaction is clean exactly when all of them are unspent in a record of that height and kind, whatever its version if the transaction has a negative one |
| CleanUndo.CleanIsConnected | src/main.cpp:1497-1582 | whenever `DisconnectBlock` reports clean, doing the transactions again on what it leaves gives the coins and undo data it was called with, but for versions negative in the block |
| CoinsView.WrittenShows | src/txdb.cpp:12-17 | a database that erases pruned records and stores the others shows the same unspent outputs, bit for bit exactly when no record written has a negative version or height |
| CoinsView.CoinsViewDB.BatchWrite | src/txdb.cpp:56-66 | all of a batch is written or nothing is, as the write goes; a record that is written becomes what it reads back as |
| CoinsView.CoinsViewCache.constructor | src/main.cpp:193 | a new layer shows what the layer below shows |
| CoinsView.CoinsViewCache.GetCoins | src/main.cpp:195-217 | a read returns what the stack shows and, filling caches on the way, changes what no layer shows |
| CoinsView.CoinsViewCache.HaveCoins | src/main.cpp:230-232 | a lookup answers for the stack and changes what no layer shows |
| CoinsView.CoinsViewCache.SetCoins | src/main.cpp:225-228 | a write changes one record of the top layer and nothing below, so dropping the layer undoes it |
| CoinsView.CoinsViewCache.GetBestBlock | src/main.cpp:234-238 | remembers the best block without changing what any layer shows |
| CoinsView.CoinsViewCache.SetBestBlock | src/main.cpp:240-243 | moves the best block of the top layer alone |
| CoinsView.CoinsViewCache.BatchWrite | src/main.cpp:245-250 | merges the records of the layer above and takes over its best block, null or not |
| CoinsView.CoinsViewCache.Flush | src/main.cpp:252-257 | succeeds exactly when the layer below is a cache or the database writes; makes that layer show the same unspent set, exactly if that is a cache, and if it is the database exactly when no record written has a negative version or height; the best block follows exactly when this layer hands one down or the layer below that has the same |
| CoinsView.FlushForgetsBestBlock | src/main.cpp:245-257 | three layers on which a flush makes the middle one forget its best block |
| BlockConnect.HaveInputs | src/main.cpp:1381-1400 | true exactly when every input is available; observes only |
| BlockConnect.GetValueIn | src/main.cpp:1336-1346 | the sum of the inputs in `int64`, without overflow on a bounded unspent set |
| BlockConnect.CheckInputs | src/main.cpp:1414-1492 | accepts exactly the transactions whose inputs are available, mature and worth at least the outputs; no sum in it overflows |
| BlockConnect.UpdateCoins | src/main.cpp:1363-1379 | spends the inputs and adds the outputs as the ledger function says, asserting each spend |
| BlockConnect.MoneyInsideBlock | src/main.cpp:1674-1713 | inside a block the unspent value stays bounded after every transaction |
| BlockConnect.ConnectCoins | src/main.cpp:1646-1719 | the loop of `ConnectBlock`, with its fee sum in `int64`, agrees with the ledger function and rejects exactly when that does |
| BlockConnect.ConnectBlock | src/main.cpp:1616-1764 | invalid exactly when the header, the block or its scripts are; on success the view shows the ledger function of the old view and undo data is on record |
| BlockConnect.UndoInputs | src/main.cpp:1545-1569 | the restoring loop over the inputs of one transaction |
| BlockConnect.DisconnectBlock | src/main.cpp:1497-1582 | succeeds exactly when undo data is there, fits and applies cleanly, and then shows the parent again |
| BlockConnect.SpendOne | src/main.cpp:1363-1379 | one spend through the view, with the assertion on its result |
| BlockConnect.GetBlockValue | src/main.cpp:1084-1091 | without overflow, what a block may claim beyond its fees is 500 coins divided by two to the number of whole 100,000 blocks: never more than 500 coins, and nothing exactly from height 3,600,000 on |
| BlockConnect.AnyLive | src/main.cpp:1648-1654 | the BIP 30 loop finds a live record exactly when there is one |
| BlockConnect.CheckAndCharge | src/main.cpp:1683-1704 | inputs, fee and maturity of one transaction, with the fee added up in `int64` |
| BlockConnect.ConnectTx | src/main.cpp:1674-1713 | one turn of the loop of `ConnectBlock` on the view |
| BlockConnect.RestoreInput | src/main.cpp:1545-1569 | one turn of the restoring loop, with its clean flag |
| BlockConnect.DropOutputs | src/main.cpp:1522-1538 | taking out the outputs of a transaction, and whether they were as expected |
| BlockConnect.DisconnectTxLoop | src/main.cpp:1517-1571 | the loop over the transactions from the last to the first |
| BlockConnect.SpendStep | src/main.cpp:1363-1379 | after any number of spends of a transaction its next input is still available |
| ChainReplay.ReplayMoney | src/main.cpp:1084-1091 | on every chain the unspent value is at most the sum of the subsidies so far |
| ChainReplay.SupplyBelowMaxMoney | src/main.h:57 | on every chain the unspent value stays strictly below `MAX_MONEY`, with room for the next subsidy |
| ChainReplay.ConnectReplays | src/main.cpp:1825-1843 | connecting a block to a view of its parent gives a view that replays its own chain; the undo data, once stored, is the same from any such view |
| ChainReplay.DisconnectReplays | src/main.cpp:1805-1821 | disconnecting with the stored undo data succeeds cleanly and gives a view that replays the parent's chain, for stored and unstored records and any version |
| ChainReplay.ReplayDetermined | src/main.cpp:1766-1848 | a reorganisation gives the same unspent outputs as building the new branch directly, in records that storing makes equal, and in equal records when no version on the chain is negative |
| ChainReplay.ExactlyShown | src/main.h:915-976 | every view of a chain has the records of its replay bit for bit exactly when none of them has a negative version |
| ChainReplay.MinusOneComesBackAs127 | src/main.cpp:1527-1535 | a block with a transaction of version -1 connects, its record reads back with version 127, and disconnecting it is clean nevertheless |
| ChainReplay.ConnectsIffPasses | src/main.cpp:1616-1719 | on any view of the parent chain a block connects exactly when it passes on the replay of that chain |
| ForkSearch.OneGenesis | src/main.cpp:1946-1971 | all blocks of the index descend from one genesis block |
| ForkSearch.FindFork | src/main.cpp:1773-1785 | the search stops at the highest common ancestor, and its assertions hold |
| ForkSearch.FindRoute | src/main.cpp:1773-1796 | the blocks to leave and to join, in order, around that ancestor |
| ForkSearch.WalkDown | src/main.cpp:1777-1780 | the inner loop of the fork search stops at the ancestor of equal height |
| ForkSearch.BlocksAbove | src/main.cpp:1788-1796 | the blocks from a tip down to just above the fork |
| Chain.DisconnectAll | src/main.cpp:1805-1821 | disconnecting down to the fork succeeds exactly when every block on the way, and its undo data, can be read; it then leaves a view that replays the fork's chain |
| Chain.ConnectAll | src/main.cpp:1825-1843 | succeeds exactly when every block on the way up can be read and written and passes on the replay of its parent, and then leaves a view that replays the new chain; else stops at the first that cannot, and calls it invalid exactly when it was read and does not pass |
| Chain.Relink | src/main.cpp:1873-1880 | what the two loops over `pnext` do to every block of the index |
| Chain.LinksFollowIff | src/main.cpp:1873-1880 | the loops leave `pnext` right for the new chain exactly when the fork lay on the old best chain and the old last link is rewritten |
| Chain.LinksFollowCoherent | src/main.cpp:1873-1880 | while the coin view follows the best block that condition always holds |
| Chain.LinksLostAfterAbort | src/main.cpp:1861-1880 | from a coherent state: a switch that aborts behind its flush, then a switch to the same block whose blocks can be read and whose flush goes through, succeeds and leaves wrong `pnext` links |
| Chain.ConnectedHaveNoNext | src/main.cpp:1247-1256 | a block about to be connected has no `pnext`, so blaming it starts no nested switch |
| Chain.ChainState.InvalidBlockFound | src/main.cpp:1247-1256 | the blamed block carries a failed flag and is no candidate any more; no candidate carries one |
| Chain.ChainState.FlushTip | src/main.cpp:1854-1867 | fails exactly when a flush is due and the disk space or the write fails; after a flush the database names the block of the coin view, and without one it is untouched; coin view and database show the unspent outputs of their chains afterwards, also when it fails and whatever the stored records lose |
| Chain.ChainState.SetBestChain | src/main.cpp:1766-1943 | the outcome, exactly: switched when all blocks to leave can be read with their undo data, all to join can be read and written and pass on the replay of their parents, and the flush goes through; rejected when the first block that stops it was read and is itself invalid; ahead when only the flush fails. After a switch the coin view replays the new chain, `pnext` marks exactly its proper ancestors and the best block has moved; a switch that fails before the flush changes nothing in any layer of the coin view, and only the one blamed block is marked and stops being a candidate |
| Chain.DisconnectOne | src/main.cpp:1805-1821 | disconnecting the best block of a view of the chain succeeds, cleanly, exactly when block and undo data can be read, and replays the parent |
| Chain.ConnectOne | src/main.cpp:1825-1843 | connecting a child of the best block succeeds exactly when it can be read and written and passes on the replay of its parent, and is invalid exactly when it was read and does not pass; on success the view replays its chain |
| Chain.ChainState.constructor | src/main.cpp:40-45 | an empty chain state is valid and coherent |
| Chain.ChainState.BuildView | src/main.cpp:1805-1843 | decides the outcome before the flush: success exactly when all blocks to leave can be read with their undo data and all to join can join, blame exactly for the first that stops it and is invalid; the coin view shows what it showed, in all its layers |
| Chain.ChainState.AdoptView | src/main.cpp:1846-1848 | the flush that is asserted to succeed does, and moves coins and best block together |
| Chain.ChainState.Commit | src/main.cpp:1846-1908 | from the flush on the coin view is at the new block, whether or not the rest succeeds, and the database still shows the chain of the block it names |
| Chain.BlamedIsNew | src/main.cpp:1825-1836 | a block above the fork on the new branch is not on the old one |
| Chain.MendsOnRoute | src/main.cpp:1873-1880 | the condition for right links after a switch does not depend on how its route was found |
| Chain.LinksLeftBehind | src/main.cpp:1873-1880 | when the coin view is already at the new block, both loops have nothing to do and the old link is stale |
| Chain.StillGood | src/main.cpp:1854-1867 | storing the records of a good view leaves a good one |
| Chain.ChainState.TwoLayers | src/main.cpp:1854-1867 | the coin view has two layers, the cache and the database |
| Chain.ChainState.Load | src/main.cpp:2633-2637 | a chain state over a loaded coin view and index is valid, at the best block of the view |
| Chain.RouteVerdict | src/main.cpp:1805-1843 | the verdict on the lists of a route is the verdict on the blocks of the two branches: those on the old chain only leave, those on the new chain only join, and the first that stops the list is the lowest that stops the switch |
| Chain.StopDecides | src/main.cpp:1825-1836 | there is one lowest block that stops a switch, and it alone decides whether a block is blamed |
| Chain.TryRoute | src/main.cpp:1805-1843 | leaving and joining the blocks of a route on a view, with the exact outcome |
| Chain.ChainState.Prepare | src/main.cpp:1766-1843 | from the two tips to the verdict before the flush |
| Chain.ChainState.Publish | src/main.cpp:1846-1867 | the two flushes: true exactly when none is due or disk space and write are there |
| BestChain.LastCandidate | src/main.cpp:1262-1267 | the candidate of most work and, of several, the one of smallest hash |
| BestChain.WalkBack | src/main.cpp:1273-1306 | collects parent by parent every block with more work than the best one, down to where no more has, or finds a failed one |
| BestChain.MarkFailedChildren | src/main.cpp:1276-1287 | marks blocks above a failed one only and removes them, and so at least the candidate the pass started from |
| BestChain.ConnectBestBlock | src/main.cpp:1258-1308 | terminates; true exactly when every switch it tries goes through, and then no candidate has more work than the best block; the blocks it tries lead, child by child, from where all work is no more than the best to a candidate that no unmarked one exceeds; candidates are lost only by failing or for a failed ancestor, and the best work never falls |
| BestChain.InMainChainIff | src/main.h:1639-1642 | `IsInMainChain` holds exactly for the blocks on the best chain |
| BestChain.FindBlockByHeight | src/main.cpp:1050-1065 | from any of its three starting points ends at the only main-chain block of the height |
| BestChain.AddToBlockIndex | src/main.cpp:1946-1993 | true exactly when the block is new, the index is written and synced and every switch tried goes through, and then no candidate has more work than the best block; keeps the whole chain state valid |
| BestChain.AttachAll | src/main.cpp:1293-1303 | true exactly when each of the blocks in turn can be switched to from the one before; the best work never falls and only blocks found invalid are blamed |
| BestChain.Attach | src/main.cpp:1293-1303 | the collected blocks are tried from the lowest to the highest |
| BestChain.NextCandidate | src/main.cpp:1258-1292 | the candidate that no other exceeds, or none when no candidate has more work than the best block |
| BestChain.MarkPass | src/main.cpp:1273-1287 | one pass that finds a failed block costs at least one candidate and marks only blocks above a failed one |
| BestChain.OneMore | src/main.cpp:1293-1303 | switching from a block to its child leaves no block and joins the child alone |
| Restart.FromIndex | src/main.cpp:2603-2610 | the candidates are the blocks without a failure flag, and the genesis block is the one without a parent |
| Restart.LinkDown | src/main.cpp:2640-2646 | the last loop marks exactly the best chain with `pnext` |
| Restart.LoadBlockIndexDB | src/main.cpp:2587-2652 | over an index and a database that shows the chain of the block it names, the result is a valid and coherent chain state at that block |
| Restart.StartOver | src/main.cpp:2587-2652 | whatever has happened to a chain state, aborted switches included, loading it again from its database and index gives a coherent one |
| Storage.SpendStorable | src/main.h:979-993 | spending leaves a record and an undo entry that fit their formats |
| Storage.ReplayStorable | src/main.h:880-976 | on every chain of transactions that can be encoded, all live records and all undo entries fit their formats |
| Storage.RecordsReadBack | src/main.h:915-976 | every live record of every view of such a chain reads back, from its bytes, as the stored form that the database is said to hold |
| Storage.UndoReadsBack | src/main.h:716-733 | every undo entry written for a block of such a chain reads back as its stored form |
| Merkle.WidthIsCalcTreeWidth | src/main.h:1115-1117 | the rounding shift is repeated halving upwards |
| Merkle.FoldBranch | src/main.h:1312-1325 | folding the neighbours from any node leads to the root, odd levels included |
| Merkle.MerkleBlock.BuildMerkleTree | src/main.h:1271-1288 | the flat array holds all levels and its root is the one of the recursive `CalcHash` |
| Merkle.MerkleBlock.GetMerkleBranch | src/main.h:1296-1310 | the neighbours on the way from a leaf to the root, and last nodes for an index behind the last transaction |
| Merkle.CheckMerkleBranch | src/main.h:1312-1325 | the fold of a branch for any index; zero for an index of minus one |
| Merkle.BranchProves | src/main.h:1271-1325 | for every index of every block the folded branch is the root |
| Merkle.SmallTrees | src/main.h:1271-1288 | trees of one, two and three leaves: pairs in order, a last node with itself |
| Bits.Pack | src/main.h:1143-1147 | bit p of the bytes is bit p of the list, and zero after its end |
| Bits.Unpack | src/main.h:1136-1142 | bit p of the list is bit p of the bytes |
| PartialMerkle.BuiltSize | src/main.cpp:2410-2426 | a built proof has between one hash and as many as leaves, and at least as many bits as hashes |
| PartialMerkle.ExtractBuilt | src/main.cpp:2428-2456 | extracting a built subtree gives its hash and its flagged leaves and uses exactly its bits and hashes |
| PartialMerkle.RoundTrip | src/main.cpp:2474-2505 | what was built, padded to whole bytes, extracts to the block's root and exactly the flagged txids in order |
| PartialMerkle.ThroughBytes | src/main.h:1132-1149 | the same through packing and unpacking, on the objects |
| PartialMerkle.ExtractSound | src/main.cpp:2428-2456 | with an injective hash, bits and hashes that extract to a node's hash yield only leaves below it, in order |
| PartialMerkle.OnlyTransactionsOfTheBlock | src/main.cpp:2474-2505 | any bits and hashes that extract to a block root that is not zero yield only transactions of the block, in order, given that the hash is injective |
| PartialMerkle.CPartialMerkleTree.TraverseAndBuild | src/main.cpp:2410-2426 | appends the proof of a subtree to the two lists |
| PartialMerkle.CPartialMerkleTree.TraverseAndExtract | src/main.cpp:2428-2456 | the recursive reader with its two counters agrees with the extraction function |
| PartialMerkle.CPartialMerkleTree.ExtractMatches | src/main.cpp:2474-2505 | all refusals and the result, as the extraction function |
| PartialMerkle.SoundIff | src/main.cpp:2474-2505 | every proof that extracts to the root of a block yields only its transactions exactly when that root is not zero, or the block is too large for a proof to be looked at |
| PartialMerkle.RefusedButMatched | src/main.cpp:2474-2505 | a refused proof, reported as root zero, that hands back any id at all as matched |
| PartialMerkle.NothingMatched | src/main.cpp:2433-2460 | once the hashes are used up nothing more is matched |
| PartialMerkle.BitsBound | src/main.cpp:2433-2460 | no subtree uses more bits than a full one has nodes |
| PartialMerkle.NothingToAdd | src/main.cpp:2474-2505 | nothing can be added to an accepted proof: one more hash, or bits that need another byte, and it is refused; bits within the last byte change nothing |
| PartialMerkle.RefusedUnread | src/main.cpp:2474-2483 | no transactions, more than 16,666, more hashes than transactions or fewer bits than hashes are refused unread |
| CheckQueue.CCheckQueue.TakeOrLeave | src/checkqueue.h:74-102 | the choice in a critical section between returning, sleeping and taking a batch from the back |
| CheckQueue.CCheckQueue.Add | src/checkqueue.h:128-139 | appends the checks and counts them |
| CheckQueue.RunChecks | src/checkqueue.h:105-107 | the verdict of a batch that stops looking after a failure |
| CheckQueue.InitInv | src/checkqueue.h:115 | a new queue satisfies the invariant |
| CheckQueue.NextInv | src/checkqueue.h:53-139 | every critical section of every thread, entered at any time, keeps the invariant |
| CheckQueue.RunInv | src/checkqueue.h:53-139 | the invariant holds in every state of every run |
| CheckQueue.TodoCounts | src/checkqueue.h:64-66 | in every run `nTodo` is the queued checks plus those in running batches |
| CheckQueue.WaitIsRight | src/checkqueue.h:75-83 | in every run `Wait` returns true exactly when every check added since the last `Wait` passes |
| CheckQueue.SleepingMasterIsWoken | src/checkqueue.h:66-68 | in every run a sleeping master is being woken or some worker still runs a batch; the report that brings `nTodo` to zero notifies it |
| CheckQueue.NextControlMayStart | src/checkqueue.h:154-161 | in every run the three assertions of a new control object hold after a finished `Wait` |
| CheckQueue.SectionWork | src/checkqueue.h:93-100 | every batch taken or reported uses up work, so a `Wait` ends after finitely many of those steps |
| CheckQueue.CCheckQueue.Report | src/checkqueue.h:63-72 | what a thread does on entering a critical section, and when it notifies the master |
| CheckQueue.Turn | src/checkqueue.h:56-112 | one turn of the loop of a thread on the object, its batch and its critical section, is a step of the state machine in fields, outcome and notification |
| CheckQueue.BatchMeans | src/checkqueue.h:93-102 | the batch: the last checks of the queue, last first, as many as the limit allows or as leave everyone an equal share, but at least one |
| CheckQueue.ReturnsIff | src/checkqueue.h:74-83 | the master leaves exactly when nothing is queued and no worker runs a batch; workers never leave |
| AddrTables.CountsAddUp | src/addrman.cpp:440 | the two counters add up to the length of the random list and the number of entries |
| AddrTables.BackPointers | src/addrman.cpp:458 | back pointers right for as many ids as the list is long make the list a permutation |
| AddrTables.YoungerReturned | src/addrman.cpp:126-148 | a bucket and draws for which the position returned holds a younger entry than the one judged oldest |
| AddrTables.DistinctInTried | src/addrman.cpp:126-148 | no entry is twice in a tried bucket, so an exchange moves the judged entry away from its old position unless both are the same |
| AddrTables.LookOne | src/addrman.cpp:434-492 | looking up one more entry, which may insert its address, passes exactly when it passes on the table with the address of id 0 supplied |
| AddrTables.MissingAddressPasses | src/addrman.cpp:434-492 | a table with all its buckets that lacks the address of id 0 and passes |
| AddrTables.Capacity | src/addrman.h:123-132 | at most 4096 tried and 16,384 new entries are ever known |
| AddrMan.CAddrMan.constructor | src/addrman.h:382-390 | the empty manager satisfies the invariant |
| AddrMan.CAddrMan.SwapRandom | src/addrman.cpp:106-124 | exchanges two places of the random list and keeps the back pointers its inverse |
| AddrMan.CAddrMan.Create | src/addrman.cpp:94-104 | one new entry under a new id, last in the random list, without references |
| AddrMan.CAddrMan.DropFromNew | src/addrman.cpp:162-170 | one reference goes, and the entry with it, from every container, when it was the last |
| AddrMan.CAddrMan.ShrinkNew | src/addrman.cpp:150-202 | drops a terrible entry of the bucket if there is one, else the oldest of the sampled ones, and keeps everything else |
| AddrMan.CAddrMan.SelectTried | src/addrman.cpp:126-148 | moves the drawn entries to the front of the bucket, in order; the entry judged oldest among them stands at the place of its turn, and at the position returned exactly when it was drawn from that place |
| AddrMan.CAddrMan.MakeTried | src/addrman.cpp:204-260 | the id leaves every new bucket for the tried table; a full bucket sends one entry back with a single reference, the one at the position `SelectTried` returns; all else stays |
| AddrMan.CAddrMan.LeaveNew | src/addrman.cpp:209-216 | after the loop over all buckets the reference count is zero, as the code asserts |
| AddrMan.CAddrMan.Good_ | src/addrman.cpp:262-311 | keeps the structure always, and the time conditions exactly when the service is unknown or the time is positive; a known new entry becomes tried |
| AddrMan.CAddrMan.Add_ | src/addrman.cpp:313-369 | keeps the invariant; true exactly for a routable unknown address; says what happens to the entry and to an evicted one |
| AddrMan.CAddrMan.Attempt_ | src/addrman.cpp:371-388 | keeps the structure, and the time conditions exactly when the service is unknown or the time is not negative |
| AddrMan.CAddrMan.Connected_ | src/addrman.cpp:510-528 | keeps the invariant and moves the time forward at most every twenty minutes |
| AddrMan.CAddrMan.GetAddr_ | src/addrman.cpp:494-508 | returns as many different known addresses as the two limits allow |
| AddrMan.CAddrMan.Check_ | src/addrman.cpp:434-492 | returns zero exactly when everything it looks at holds of the table it is given, extended by the address of id 0 if that is missing; so the verdict is right about the table itself unless only that address is missing |
| AddrMan.ValidIsChecked | src/addrman.cpp:434-492 | the invariant kept by the operations is what `Check_` looks at plus bucket sizes, id range and no unknown addresses |
| AddrMan.CAddrMan.Find | src/addrman.cpp:81-92 | finds the only entry with the address, or there is none |
| AddrMan.CAddrMan.SwapOut | src/addrman.cpp:232-259 | the exchange between a full tried bucket and the new table |
| AddrMan.CAddrMan.FindOrigin | src/addrman.cpp:290-301 | the search over all new buckets from a random start finds one that holds the id, if any does |
| AddrMan.CAddrMan.Renew | src/addrman.cpp:322-350 | what a known entry learns; it gets another reference exactly when the address is newer than the entry, the entry is not tried and has fewer than four, and the draw allows it |
| AddrMan.CAddrMan.Admit | src/addrman.cpp:351-357 | the entry of a new address, field by field, which no bucket holds yet |
| AddrMan.CAddrMan.Insert | src/addrman.cpp:359-368 | one more reference in a bucket that makes room when it is full |
| AddrMan.OldestOf | src/addrman.cpp:176-189 | the oldest of as many different entries as there are different sampled positions |
| AddrMan.Refresh | src/addrman.cpp:325-331 | the place of a known entry is kept, services only grow, and as long as it fits its field the time moves exactly when the entry had none, or the new one, less the penalty, is more than a day later, or more than an hour for an address seen within the last day |
| AddrMan.Refused | src/addrman.cpp:346-350 | an entry without references is never refused, one with one, two or three exactly unless the draw is a multiple of 2, 4 or 8 |
| AddrMan.CAddrMan.CheckEntry | src/addrman.cpp:448-466 | the tests of one entry; its address is inserted, with id 0, exactly when it is missing and the earlier tests pass |
| AddrMan.TimesLost | src/addrman.cpp:262-311 | a manager left by `Good_` at time zero and one left by `Attempt_` at time -1 fail what `Check_` asks of the times |
| AddrMan.CAddrMan.ForgetEntry | src/addrman.cpp:160-200 | an entry that loses its last reference leaves every container |
| MemPool.CTxMemPool.AddUnchecked | src/main.cpp:832-844 | keeps `mapNextTx` exactly the inputs of `mapTx` |
| MemPool.CTxMemPool.Accept | src/main.cpp:654-820 | accepts exactly a valid, standard, new transaction that spends nothing the pool spends; nothing else changes |
| MemPool.CTxMemPool.Remove | src/main.cpp:846-868 | ends, and takes out exactly the transaction and, when recursive, all its pool descendants; the update counter counts them |
| MemPool.CTxMemPool.RemoveConflicts | src/main.cpp:870-883 | takes out exactly the other spenders of the inputs and their descendants; afterwards no other pool transaction spends any of them |
| MemPool.DescendsSame | src/main.cpp:852-858 | taking out families does not cut any other line of descent |
| MemPool.NotOwnDescendant | src/main.cpp:852-858 | no transaction descends from itself |
| MemPool.CTxMemPool.RemoveSpender | src/main.cpp:853-857 | the spender of one output goes with its descendants, and nothing else |
| MemPool.CTxMemPool.RemoveOne | src/main.cpp:859-865 | one transaction goes with its inputs |
| MemPool.CutIff | src/main.cpp:846-868 | what a recursive removal leaves, without speaking of descent: the transaction is gone, nothing left spends an output that is gone, and nothing else is gone |
| MultiSig.TakeKey | src/script.cpp:906-913 | taking the first key that fits never spoils a match |
| MultiSig.SkipKey | src/script.cpp:914-915 | a key that does not fit the next signature is of no use to later ones |
| MultiSig.TooFewKeys | src/script.cpp:919-920 | with more signatures than keys left there is no match |
| MultiSig.MatchLoop | src/script.cpp:899-921 | the greedy loop succeeds exactly when some strictly increasing assignment of signatures to keys verifies; both cursors stay on their lists |
| MultiSig.OneCall | src/script.cpp:866-887 | a stack holds at most one well-formed call |
| MultiSig.CheckMultiSig | src/script.cpp:861-934 | fails exactly without a well-formed call, else replaces the call by an answer that casts to true exactly when some strictly increasing assignment verifies, and counts the keys as operations |
| MultiSig.CastToBool | src/script.cpp:42-56 | true exactly for bytes that stand for a number other than zero |
| MultiSig.TrueIsNotZero | src/script.cpp:42-56 | bytes cast to true exactly when the number they stand for, of either sign, is not zero |
| MultiSig.PushAndCheck | src/script.cpp:861-934 | run on what a script pushed, it fails exactly for more than 20 keys, more signatures than keys or more than 201 operations, and else leaves a value that is true exactly when some strictly increasing assignment verifies |
| Bignum.SetGet | src/bignum.h:240-265 | every number of either sign is read back from its byte form |
| Bignum.DigitsOfValue | src/bignum.h:255-265 | bytes without zeros on top are the only minimal form of their number |
| Base58.DecodeEncode | src/base58.h:29-121 | decoding undoes encoding for every byte string, with leading zeros and high top bytes |
| Base58.EncodeDecode | src/base58.h:29-121 | encoding undoes decoding for every text over the alphabet |
| Base58.EncodedDecodes | src/base58.h:29-121 | the decoder accepts every encoded text and gives the bytes back |
| Base58.EncodeBase58 | src/base58.h:29-67 | the loops of divisions and of leading zeros compute the encoding |
| Base58.DecodeBase58 | src/base58.h:77-121 | succeeds exactly for text over the alphabet with space around it, and gives the bytes of that text |
| Base58.SignByte | src/base58.h:106-110 | stripping the sign byte leaves the minimal magnitude |
| Base58.AlphabetMeans | src/base58.h:26 | the alphabet is the digits and letters of ASCII without 0, O, I and l |
| Base58.BigEndian | src/base58.h:29-121 | one more character multiplies the number by 58, one more byte by 256, and a one in front is a zero byte in front |
| VarInt.ValueOfBytes | src/serialize.h:272-302 | every number is read back from its encoding |
| VarInt.BytesOfValue | src/serialize.h:272-302 | every whole encoding is the encoding of the number it is read as |
| VarInt.OneEncoding | src/serialize.h:272-287 | different numbers have different encodings |
| VarInt.FitsBuffer | src/serialize.h:275 | an encoding fits the temporary buffer of its type |
| VarInt.GetSizeOfVarInt | src/serialize.h:259-270 | the number of bytes that are written |
| VarInt.WriteVarInt | src/serialize.h:272-287 | writes the encoding through a buffer it never overruns; a negative number leaves its low seven bits |
| VarInt.ReadVarInt | src/serialize.h:289-302 | reads as the parsing function, and fails when the stream ends early |
| VarInt.RoundTrip | src/serialize.h:272-302 | a number written is read back, with the rest of the stream untouched, exactly when it is not negative |
| VarInt.InOrder | src/serialize.h:272-287 | larger numbers have longer or lexicographically later encodings, which with `BytesOfValue` fixes every encoding |
| Amount.DecompressCompress | src/main.cpp:4726-4769 | every amount comes back from its code |
| Amount.CompressDecompress | src/main.cpp:4726-4769 | every code is the code of the amount it stands for |
| Amount.CompressFits | src/main.cpp:4726-4743 | up to a ninth of the range of `uint64`, and so for all money values, no step wraps |
| Amount.CompressAmount | src/main.cpp:4726-4743 | the loop computes the code in `uint64`, without wrapping for such amounts |
| Amount.DecompressAmount | src/main.cpp:4745-4769 | the loop computes the amount modulo 2^64 |
| Amount.Examples | src/test/compress_tests.cpp:37-44 | the pairs of the unit test, of which the last is wrong about the code of 100 million coins |
| ScriptCompressor.DecompressCompress | src/script.cpp:1819-1902 | a script of a special shape comes back from its short form |
| ScriptCompressor.ScriptRoundTrip | src/script.h:627-652 | every script whose size fits 32 bits is read back and nothing after it is touched |
| ScriptCompressor.GetSerializeSize | src/script.h:619-625 | the number of bytes that `Serialize` writes |
| ScriptCompressor.Serialize | src/script.h:627-637 | writes the short form when there is one, else the shifted size and the script |
| ScriptCompressor.Unserialize | src/script.h:639-652 | reads as the parsing function |
| ScriptCompressor.ShortForms | src/script.cpp:1819-1902 | the five special shapes and their short forms, byte by byte |
| CoinsRecord.TxOutRoundTrip | src/main.h:684-695 | every output of a valid transaction is read back |
| CoinsRecord.CalcMaskSize | src/main.h:870-886 | the number of mask bytes up to the last used one, and how many of them are not zero |
| CoinsRecord.CodeFits | src/main.h:898-899 | a record that is not pruned passes the assertion, and its code fits 32 bits |
| CoinsRecord.MaskRoundTrip | src/main.h:957-966 | the reader takes exactly the mask bytes that were written |
| CoinsRecord.AvailBack | src/main.h:952-966 | the bits collected are exactly the outputs that are left |
| CoinsRecord.OutsRoundTrip | src/main.h:968-972 | outputs are read back into their places |
| CoinsRecord.RecordRoundTrip | src/main.h:915-976 | a cleaned unpruned record is read back in its stored form, and nothing after it touched; it is the same record exactly when version and height are not negative |
| CoinsRecord.Serialize | src/main.h:915-942 | the loops write the bytes of the record |
| CoinsRecord.GetSerializeSize | src/main.h:892-913 | the number of bytes that `Serialize` writes |
| CoinsRecord.Unserialize | src/main.h:944-976 | the loops read as the parsing function |
| CoinsRecord.SerializeTxOut | src/main.h:684-695 | writes the bytes of one output |
| CoinsRecord.UnserializeTxOut | src/main.h:684-695 | reads as the parsing function of one output |
| CoinsRecord.MaskByte | src/main.h:928-934 | one mask byte has the bits of its eight outputs |
| CoinsRecord.UnserializeMask | src/main.h:957-966 | the loop that counts nonzero bytes reads as the parsing function |
| CoinsRecord.UnserializeOuts | src/main.h:968-972 | the loop that fills the outputs reads as the parsing function |
| CoinsRecord.OneOutputLeft | src/main.h:915-942 | a record with one output left, byte by byte |
| CoinsRecord.TwoOutputsLeft | src/main.h:915-942 | a coinbase record with two outputs left behind a mask of two bytes, byte by byte |
| UndoRecord.UndoRoundTrip | src/main.h:716-733 | an undo entry is read back in its stored form, which is the entry itself exactly when its version is not negative, or zero where none is written |
| UndoRecord.SpentUndoRoundTrips | src/main.h:979-993 | what spending leaves behind is read back unchanged unless the record was emptied and its version is negative |
| UndoRecord.TwoEntries | src/main.h:716-733 | an undo entry with a height and one without, byte by byte |
| Compact.TargetOfCompact | src/bignum.h:289-330 | decoding an encoded nonnegative number gives it with its low bytes set to zero |
| Compact.CompactPromises | src/bignum.h:289-330 | decoding never exceeds the number, loses at most one part in 2^15, is monotone, and re-encodes to the same word |
| Compact.SetCompact | src/bignum.h:289-306 | the number a word stands for, sign included |
| Compact.GetCompact | src/bignum.h:308-330 | the two branches and the sign-bit correction give sign, size and leading bytes of any number; the size byte wraps |
| Compact.TargetOfWord | src/bignum.h:289-306 | the number a word stands for, as its three low bytes shifted by whole bytes |
| Retarget.GetNextWorkRequired | src/main.cpp:1122-1189 | keeps the bits between retargets, encodes the scaled and limited target at one, whatever the old one was, never falls off the chain, and stays within the limit if the old target was |
| Retarget.RetargetBounds | src/main.cpp:1166-1188 | the next target is at most the limit and four times the old one, and at least a quarter of it but for rounding |
| Retarget.TargetsMoveSlowly | src/main.cpp:1122-1189 | along a chain of required bits the target grows at most fourfold over any 53 blocks and not at all within an interval |
| Retarget.NewTargetBySpan | src/main.cpp:1166-1180 | an interval of at most 7200 seconds quarters the target, one of 115,200 or more quadruples it, in between it is scaled by the time over 28,800 seconds, always capped at the limit, and exactly 28,800 seconds change nothing |
| Retarget.SlowerNeverHarder | src/main.cpp:1166-1180 | a longer interval never gives a smaller target |
| MedianTime.MedianRank | src/main.h:1662-1663 | the median is at least m exactly when at most half of the numbers, rounded down, are below m |
| MedianTime.MedianStep | src/main.cpp:2189-2190 | a block later than the median before it does not lower the median, in a sliding or a growing window |
| MedianTime.MedianNeverDecreases | src/main.cpp:2189-2190 | along every chain of accepted blocks the median time never decreases |
| MedianTime.LaterThanAllMedians | src/main.cpp:2189-2190 | every accepted block is later than the median time of each of its ancestors |
| MedianTime.GetMedianTimePast | src/main.h:1652-1664 | the walk into the buffer and the sort give the median of the last eleven times |
| MedianTime.AcceptTime | src/main.cpp:2189-2190 | lets a time pass exactly when it is later than the median, and then it is later than all medians before |
| MedianTime.WindowMeans | src/main.h:1652-1660 | the window is the times of the last n blocks, or of all while there are fewer |

## Left out

- Chain.ChainState.InvalidBlockFound: does not start another `ConnectBestBlock` for a block that has a `pnext`; while links are coherent no block that is being connected has one (`Chain.ConnectedHaveNoNext`). `nBestInvalidWork` and the warnings are left out.
- Chain.ChainState.SetBestChain: leaves out what a switch does to the memory pool and the wallets, the locator, the notifications and the version warning. Reading a block from disk fails as its own outcome.
- BlockConnect.ConnectBlock: takes the heights for which the subsidy shift is below 64, since C++ leaves larger shifts undefined; script checks, sigop counts, BIP 34 and the header are one verdict each. `fJustCheck` is not modelled. The genesis block is recognised by having no parent, not by its hash.
- Blocks.CheckTransaction: the size limit of a transaction and the length of a coinbase script are left out, since transactions carry no input scripts here.
- Blocks.CheckBlock: sizes, sigop counts, proof of work, time and Merkle root are part of the header verdict of `BlockConnect.ConnectBlock`.
- BlockConnect.CheckInputs: script evaluation is a parameter; the priority of a transaction is left out.
- BestChain.AddToBlockIndex: chain work is an unbounded number, not 256 bits, and the work of a block is any positive number; file positions are left out.
- CheckQueue.NextInv: a critical section is one atomic step and a thread may enter one at any time; `CCheckQueueControl` reads three fields without the lock, which is modelled as one step. `fQuit` is never set in the code and so is false. Which worker a notification wakes is not modelled.
- AddrMan.CAddrMan.Add_: the source address, which only feeds the bucket hash, is left out; service flags are a set of bits; ids and attempt counts do not wrap.
- MemPool.CTxMemPool.Accept: fees, free relay, standardness and scripts are one verdict; that the inputs exist in the coins or the pool is part of it.
- MemPool.CTxMemPool.Remove: that txids are hashes of their transactions enters as a rank by which a transaction comes after those it spends from, and as equal txids meaning equal transactions.
- MultiSig.CheckMultiSig: removing the signatures from the script code before the signatures are verified is part of the uninterpreted signature check.
- Base58.DecodeBase58: takes a C string, which has no zero character; space is that of the C locale.
- VarInt.ReadVarInt: overflow of the signed type wraps, where C++ leaves it undefined.
- ScriptCompressor.ScriptRoundTrip: assumes that the curve finds a valid key again from its first coordinate and parity.
- Retarget.GetNextWorkRequired: the rules of the test network are left out, and the limit is one whose compact form does not overflow.
- Merkle.MerkleBlock.GetMerkleBranch: takes an index that is not negative; a negative one reads outside the array.
- PartialMerkle.CPartialMerkleTree.TraverseAndExtract: takes the height and the counters of its own calls; 32-bit wrap of the counters cannot happen below the size limit and is not modelled.
- Restart.LoadBlockIndexDB: the block index on disk is taken to hold what the one in memory holds, failure flags and undo positions included; reindexing and the block file records are left out.
- Storage.ReplayStorable: that a transaction has a 32-bit version and fewer than 2^31 outputs with scripts below 4 GB, as the size limit of a block implies, is a hypothesis.
- `Select_` and `GetChance`, which use floating point, and the serialised form of the address manager.
- `GetBlockWork`, `ComputeMinWork`, checkpoints, `IsSuperMajority`, and the orphan pools.
- Block and undo files, LevelDB batches and Berkeley DB: a store is a map from keys to what the records written read back as, and a batch is written as a whole.
- `CMerkleTx::SetMerkleBranch`, `pruneSpent`, `queryHashes` and the memory pool's coin view.
- Sockets, RPC, wallet, user interface, alerts and start-up.
