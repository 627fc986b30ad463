# Verified model of the node's consensus state and bookkeeping

Dafny models of the parts of the node that keep state and must keep it right, with proofs of what
they promise. Each module follows one part of the program. Code that updates fields or buffers in
place is modelled by classes, methods and loops, each proved against a function of its inputs or of
the old state; the properties of these functions are proved as lemmas.

`dafny verify dfyconfig.toml` checks everything.

**The set of unspent outputs** (`Core`, `CoinRecord`, `Utxo`, `Reversal`, `Supply`, `CoinsView`,
`Connector`, `Rules`, `Replay`, `RangeChecks`). Transactions and blocks with the checks that need no context,
the records of unspent outputs, spending with its lossy undo data, connecting and disconnecting blocks
through a stack of caches. Sets are compared up to pruned records counting as absent, as the source
compares them. The main results: `Reversal.DisconnectRestoresIff` says for every accepted block when
disconnecting restores everything, and `Replay.DisconnectLast` the same for every path;
`Supply.TotalConnectBlock` and `Replay.ReplayedSupply` bound the money there is on every chain, and
`RangeChecks.InputsOkInBlock` concludes for every transaction of every block that `CheckInputs`
accepts exactly what is available, mature and covers the outputs, although the coinbase of the block is
in the set with an amount not checked yet; `Rules.AcceptedIff` says which blocks are accepted,
`Rules.BlockLeaves` what they leave, and `Rules.OutputsMatchIff` what disconnecting compares, all in
terms of the amounts, heights and outputs themselves; `CoinsView.CoinsViewCache.Flush` and its
neighbours refine a stack of caches to one map.

**What storing changes** (`Storage`, `StorageExact`, `Unwinding`). Neither the coin database nor the
undo files keep a negative version. `StorageExact.StoredDisconnectIff` says for a block, and
`Unwinding.UnwindingExactIff` for any number of blocks of a chain, what disconnecting with undo files
restores, and when exactly that is everything; `StorageExact.NegativeVersionNotRestored` is an input
for which it is not. The database of `CoinsView` and the undo files of `BestChain` hold what is read
back, not what was written.

**The best chain** (`BlockTree`, `ChainArray`, `BestChain`). The tree of blocks, the path arrays with
locators, and the choice of the best chain with its failure flags and candidate set. One invariant,
`BestChain.Good`, holds after every operation: the coins are the replay of the active chain, up to
versions read back from disk, undo files are those of the replay, flagged blocks have no valid path,
and the candidates are exactly the blocks without a flag; a block exempt from BIP 30 overwrites only
what it has spent, which is when disconnecting it works. `BestChain.ChainState.ActivateBestChain` ends
with a tip that no block with a valid path beats in chain work, which is the sum of the works along the
path, or precedes with as much, and `BestChain.CoinsDependOnTipOnly` says that the way to a tip leaves
no trace in the coins but in negative versions.

The work left in `ActivateBestChain` is measured by the candidate set. A block that fails while it is
connected is flagged only after the failed end of the most-work chain was dropped, so that the next
round may try a block again that is known to be bad; the candidate set got smaller before that, and
that is what the contract of `FindMostWorkChain` keeps.

**Merkle trees** (`Merkle`, `PartialMerkle`, `PartialMerkleSize`). The flat tree and its branches, and the partial tree
of BIP 37 (sections "Constructing a partial merkle tree object" and "Parsing a partial merkle tree
object"). The hash of two nodes is any function where a tree is built and read back, and an
injective one where what a stranger sends is read.

**The check queue** (`CheckQueue`). The queue of script checks as a state machine over the steps of
any number of workers and the master, spurious wakeups included.

**The address manager** (`AddrTables`, `AddrChecks`, `AddrMan`, `AddrCodec`). Its five tables under
every public operation, the repository's own check with what exactly it finds, and the file. Random
numbers are arbitrary values in their range, and the keyed hashes that choose buckets arbitrary
functions.

**Codecs and download queues** (`AmountCodec`, `VarInt`, `CoinsCodec`, `UndoCodec`, `Base58`,
`BlockDownload`). Amount compression, variable-length integers, the stored forms of a record and of
undo data, Base58 in its fixed buffers, and the queues of blocks to
fetch from peers.

`Bits`, `Numbers` and `Sequences` hold the arithmetic and the sets that several of these use.

## Where the code and its comments disagree

- The comment at `src/main.h:516` bounds the flag bits of a partial tree with N hashes by 2N-1.
  `PartialMerkleSize.DocumentedBoundIff` says when this holds, and
  `PartialMerkleSize.BitsExceedDocumentedBound` is an input for which it does not. The guarantee on
  the size at `src/main.h:503` rests on it: `PartialMerkleSize.DocumentedSizeIff` and
  `PartialMerkleSize.SizeExceedsDocumentedBound`.
- The constructor of `CCheckQueueControl` asserts on an unused queue that `nTotal == nIdle`, without
  taking the lock. `CheckQueue.ControlAssertionsIff` says exactly when this holds, and
  `CheckQueue.CountsCanDiffer` is a run after which it does not.
- `SelectTried` is said to find the least recently tried entry, and returns the place that entry was
  at before it was exchanged. `AddrMan.AddrMan.SelectTried` says exactly when the entry is still
  there, and `AddrMan.SelectsAnother` is an input for which it is not.
- `Flush` passes a best block on even when it is 0. The contract of `CoinsView.CoinsViewCache.Flush`
  says exactly when the base shows the same best block afterwards; both callers are in that case, and
  `CoinsView.FlushLosesBestBlock` shows the other.
- A negative version is not stored (`src/main.cpp:1660`). `CoinsCodec.RoundTripIff` and
  `UndoCodec.UndoRoundTripIff` say what comes back exactly, `CoinsCodec.NegativeVersionLost` is an
  input that does not, and `UndoCodec.StoredRecordMatches` shows that disconnecting does not mind.
  `StorageExact.StoredDisconnectIff` and `Unwinding.UnwindingExactIff` follow this through
  disconnecting; the lemmas of `Reversal` are about undo data as connecting makes them.
- A block that is exempt from BIP 30 may overwrite a record that is still there.
  `Reversal.ExemptBlockNotRestored` shows that disconnecting it then reports no problem and loses the
  record.
- `FindMostWorkChain` erases flagged blocks from the candidate set that are not in it
  (`BestChain.CandidateOrFailed`).

## Model

| member | source | states |
|---|---|---|
| `Core.CheckTransaction` | src/main.cpp:754-809 | accepts exactly the transactions with inputs and outputs, a size within the limit, every output value and their sum in money range, distinct inputs, a coinbase script of 2 to 100 bytes, and a null input only as the one input of a coinbase; the running total never changes the verdict |
| `Core.ValueOutPrefix` | src/main.cpp:769-782 | a partial sum of values that are not negative is never above the whole, so stopping at the first partial sum out of range is the same as checking the whole |
| `Core.CheckBlock` | src/main.cpp:2316-2363 | accepts exactly the blocks within the size limits with a coinbase first and nowhere else, well-formed transactions and distinct transaction ids; so exactly the first transaction has a null input |
| `Core.DistinctIdsBySize` | src/main.cpp:2357-2363 | comparing the size of the set of ids with the number of transactions decides whether the ids are distinct |
| `CoinRecord.Cleanup` | src/coins.h:93-98 | drops exactly the spent outputs at the end |
| `CoinRecord.CleanedUnique` | src/coins.h:93-98 | a prefix that ends in an unspent output and drops only spent ones is the cleaned list; there is no other |
| `CoinRecord.ClearUnspendable` | src/coins.h:100-106 | makes every provably unspendable output null and drops those at the end |
| `CoinRecord.SpendOutput` | src/coins.cpp:30-44 | fails exactly when the output is not available and then changes nothing; otherwise undo holds the output, and height, version and coinbase flag only when nothing is left |
| `CoinRecord.SpendAvailable` | src/coins.cpp:30-44 | after a spend exactly that output is gone, and what is left is empty or again in the stored form |
| `CoinRecord.PutOutRestores` | src/main.cpp:1695-1697 | dropping the trailing null outputs after a spend loses nothing that resizing and putting the output back does not restore |
| `CoinRecord.SpendUnspend` | src/coins.cpp:30-44 | the lossy undo data suffices: putting a spent output back gives the very record there was, and a height other than 0 in it marks exactly the last output |
| `CoinRecord.FromTxWf` | src/coins.h:85-87 | the record of a well-formed transaction above height 0 is in the stored form, unless nothing of it is spendable |
| `Utxo.SpendInputsSucceeds` | src/main.cpp:1507-1524 | for distinct inputs that are all available no spend in UpdateCoins fails, and afterwards exactly those outputs are gone |
| `Utxo.SpendOneAvailable` | src/main.cpp:1507-1524 | a spend makes one output unavailable in the whole set and no other |
| `Utxo.SpendRestoreOne` | src/main.cpp:1676-1699 | putting one input back from its undo data gives back the whole set |
| `Utxo.SpendRestore` | src/main.cpp:1672-1701 | putting all inputs of a transaction back, last one first, gives back the whole set and reports no problem, several inputs from one record included |
| `Reversal.RevertTx` | src/main.cpp:1647-1702 | undoing a transaction that overwrote no record gives back the set before it |
| `Reversal.RevertTxs` | src/main.cpp:1646-1702 | undoing all transactions of a block in reverse, chains of spends within the block included, gives back the set before the block |
| `Reversal.Bip30PreventsOverwrite` | src/main.cpp:1782-1789 | when no id of the block is stored beforehand and ids are distinct, no transaction overwrites a live record at the moment it is stored |
| `Reversal.AvailableAfter` | src/main.cpp:1815-1857 | an output of another transaction is available after a block exactly when it was before and the block does not spend it |
| `Reversal.NoLiveOverwriteIff` | src/main.cpp:1767-1789 | no live record is overwritten exactly when every stored output under an id of the block is spent by the block before that id is stored |
| `Reversal.OverwriteIsNotUndone` | src/main.cpp:1767-1789 | once a live record is overwritten, undoing the block never gives back the set before it |
| `Reversal.Accepted` | src/main.cpp:1747-1866 | what acceptance says: the checks of CheckBlock, BIP 30 unless exempt, all transactions connected, and a coinbase within subsidy and fees |
| `Reversal.DisconnectRestoresIff` | src/main.cpp:1627-1713 | for every accepted block, the two that are exempt from BIP 30 included, disconnecting with the undo data that connecting made is clean and restores everything if and only if stored outputs under its ids were spent by it in time |
| `Reversal.DisconnectRestores` | src/main.cpp:1627-1713 | for every accepted block to which BIP 30 applies, disconnecting with the undo data that connecting made is clean and restores every record: outputs, height, version, coinbase flag |
| `Reversal.ExemptBlockNotRestored` | src/main.cpp:1767-1789 | an exempt block that is accepted, and whose disconnecting reports no problem although the record it overwrote is lost |
| `Storage.InputsOkStored` | src/main.cpp:1538-1589 | inputs are accepted on records that were stored and read back exactly if they are on the records themselves |
| `Storage.SpendInputsStored` | src/main.cpp:1507-1516 | spending from such records works exactly if it does otherwise, and leaves the same undo file |
| `Storage.ConnectBlockStored` | src/main.cpp:1747-1912 | a block is accepted on such records exactly if it is on the records themselves, with the same undo file, and the sets still differ only in versions |
| `Storage.DisconnectTxsMarked` | src/main.cpp:1645-1702 | undoing transactions with the undo file: exactly the records whose last output was spent, and those that were stored before, have their versions as they are read back |
| `Storage.DisconnectBlockStored` | src/main.cpp:1627-1713 | disconnecting a block with its undo file from such records works whenever it does with undo data as they were made, and the sets still differ only in versions |
| `StorageExact.FullySpentIff` | src/coins.cpp:30-44 | the last output of a record is spent in a block exactly if the record is gone afterwards or its id was stored anew |
| `StorageExact.StoredDisconnectIff` | src/main.cpp:1627-1713 | for every accepted block that overwrote only what it had spent: disconnecting it with its undo file is clean; records come back as they were, with the version as it is read back exactly where the block had spent the last output; and all is restored exactly if and only if no such record had a negative version |
| `StorageExact.NegativeVersionNotRestored` | src/main.cpp:1641-1641 | an input that fails: a block that spends the one output of a record with version -1 is accepted, and disconnecting it brings the record back with version 127 |
| `Supply.TotalSpendInputs` | src/main.cpp:1507-1516 | spending takes exactly the value of the inputs out of the set |
| `Supply.InputRangeChecksPass` | src/main.cpp:1556-1575 | on a set worth at most MAX_MONEY, no range check on a prefix of distinct available inputs can fail |
| `Supply.TotalConnectTx` | src/main.cpp:1577-1589 | a coinbase adds at most its outputs; another transaction lets its fee leave and adds nothing |
| `Supply.TotalConnectTxs` | src/main.cpp:1815-1857 | over all transactions of a block the set grows by at most the coinbase outputs less the fees |
| `Supply.TotalConnectBlock` | src/main.cpp:1862-1866 | no accepted block makes the set worth more than before plus its subsidy: fees are conserved |
| `Supply.SubsidiesBound` | src/main.cpp:1212-1225 | what all halving intervals have paid up to any height, against the value the schedule converges to |
| `Supply.SubsidiesBelowMaxMoney` | src/chainparams.cpp:114-114 | at every height the subsidies so far come to less than 17,280,000 coins, which is below MAX_MONEY |
| `CoinsView.LiveStore` | src/coins.h:116-124 | up to pruned records counting as absent, writing a record is storing it, or removing the id when it is pruned |
| `CoinsView.CoinsViewDB.BatchWrite` | src/txdb.cpp:56-66 | the database shows the batch over what it showed, each record as it is read back; pruned records are erased; a null best block is not written |
| `CoinsView.CoinsViewCache.constructor` | src/coins.cpp:72-72 | a new layer shows exactly what is below it |
| `CoinsView.CoinsViewCache.GetCoins` | src/coins.cpp:74-102 | returns the record of the flat view; fetching through any number of layers changes the view of none of them |
| `CoinsView.CoinsViewCache.HaveCoins` | src/coins.cpp:109-111 | tells whether the flat view has a record, and changes no layer's view |
| `CoinsView.CoinsViewCache.SetCoins` | src/coins.cpp:104-107 | changes one record of the top view and nothing below |
| `CoinsView.CoinsViewCache.GetBestBlock` | src/coins.cpp:113-117 | returns the best block of the stack, cached without changing what any layer shows |
| `CoinsView.CoinsViewCache.SetBestBlock` | src/coins.cpp:119-122 | changes the best block of the top layer only; 0 means the one below |
| `CoinsView.CoinsViewCache.BatchWrite` | src/coins.cpp:124-129 | puts a batch over the layer's view and takes its best block even when it is 0 |
| `CoinsView.CoinsViewCache.Flush` | src/coins.cpp:131-136 | the cache is empty, and the base shows exactly what the layer showed, or, when it is the database, the same up to versions that were negative; the best block is carried over if and only if it was set or read in the layer, or the base has none of its own that differs |
| `CoinsView.FlushLosesBestBlock` | src/coins.cpp:131-136 | the other side of the condition is reachable: a cache whose best block was neither read nor set makes its base lose the one that was set there |
| `Connector.ViewHaveInputs` | src/coins.cpp:161-180 | true exactly for a coinbase or when every input is available in the view |
| `Connector.GetValueIn` | src/coins.cpp:149-159 | the sum of the values of the outputs spent |
| `Connector.SumInputs` | src/main.cpp:1553-1575 | the loop accepts exactly when every input is mature and in range and the whole sum is in range |
| `Connector.CheckInputs` | src/main.cpp:1538-1623 | accepts exactly when inputs are available, mature and in range, and cover the outputs with a fee in range |
| `Connector.UpdateCoins` | src/main.cpp:1507-1524 | spends the inputs in place one after the other and stores the new record; none of its assertions fails; the layers below do not change; afterwards exactly the outputs of the transaction that can be spent are there under its id, with their values and scripts, its height, version and coinbase flag |
| `Connector.ConnectOne` | src/main.cpp:1815-1857 | one round of the loop refuses or carries on exactly as the connecting function does, with undo data and fees |
| `Connector.CheckBip30` | src/main.cpp:1782-1789 | true exactly when no id of the block has an output left in the view |
| `Connector.Connect` | src/main.cpp:1747-1912 | ConnectBlock on a layered cache: accepted exactly if the block is well formed, keeps to BIP 30, can be connected and pays at most reward and fees, with the set and undo data of the connecting function, best block set, layers below untouched |
| `Connector.PutBack` | src/main.cpp:1679-1697 | reports a problem exactly when undo data contradicts the record, and otherwise restores it |
| `Connector.RestoreInput` | src/main.cpp:1676-1700 | puts one output back in the view |
| `Connector.RemoveOutputs` | src/main.cpp:1651-1669 | reports whether the stored outputs are those the transaction made, with the same height, flag and version, up to unspendable ones and a negative version, and removes them |
| `Connector.RestoreAllInputs` | src/main.cpp:1672-1701 | puts all inputs of a transaction back, last one first, and reports whether all fitted |
| `Connector.DisconnectOne` | src/main.cpp:1647-1702 | one round of the loop of DisconnectBlock |
| `Connector.Disconnect` | src/main.cpp:1627-1713 | DisconnectBlock on a layered cache: clean exactly when every check holds, with the resulting set and the parent as best block, layers below untouched |
| `Rules.SubsidyIsReward` | src/main.cpp:1212-1225 | the shifts of the subsidy come to 30 coins divided by 2 for every 288,000 blocks, rounded down, and to nothing from the 64th halving on |
| `Rules.AcceptedIff` | src/main.cpp:1747-1866 | a block is accepted if and only if it is the genesis block, or well formed, keeps to BIP 30 or is one of the two exempt blocks, all its transactions can be connected, and its coinbase pays at most that reward and the fees |
| `Rules.ConnectedCreates` | src/main.cpp:1507-1524 | after a transaction is connected, exactly its outputs whose scripts do not start with OP_RETURN are available, each with its value and script, and the record has its height, version and coinbase flag |
| `Rules.ConnectingKeeps` | src/main.cpp:1507-1524 | no output of another transaction that is left is altered, nor what its record says |
| `Rules.BlockLeaves` | src/main.cpp:1815-1857 | after a block, the outputs of each of its transactions are there exactly if they can be spent and no later transaction of the block has spent them |
| `Rules.CleanedSameIff` | src/coins.h:93-106 | outputs without those that cannot be spent are the same if and only if the same ones can be spent at the same places |
| `Rules.OutputsMatchIff` | src/main.cpp:1651-1667 | DisconnectBlock finds the stored outputs right if and only if exactly the outputs that the transaction made and that can be spent are there, with the same height, flag and version, unless that was negative |
| `Replay.ReplayedSnoc` | src/main.cpp:2014-2033 | the set and undo data after one more block are those of connecting it to the replay so far |
| `Replay.ReplayedSupply` | src/main.cpp:1862-1866 | whatever path from the genesis block was connected, exempt blocks included, records are in the stored form and worth at most the subsidies so far |
| `Replay.RangeChecksNeverFail` | src/main.cpp:1556-1589 | between two blocks of any chain, exempt blocks included, the whole set is worth less than 17,280,000 coins, so that no range check against it can fail |
| `RangeChecks.CoinbaseExceedsMaxMoney` | src/main.cpp:1815-1866 | inside a block this is not so: the coinbase is stored before its amount is compared with the subsidy, and may then pay MAX_MONEY to a set that is not empty |
| `RangeChecks.MatureElsewhere` | src/main.cpp:1561-1567 | no input that is mature names the coinbase of the block it is in |
| `RangeChecks.ValueWithinBlock` | src/main.cpp:1815-1857 | after any number of transactions of a block its coinbase is unspent, and all other records and the fees so far are worth no more than the set before the block |
| `RangeChecks.RangesWithinBlock` | src/main.cpp:1553-1575 | in the middle of a block, inputs that are available, distinct and mature are in range, and so is their sum |
| `RangeChecks.RangeChecksInBlock` | src/main.cpp:1553-1575 | on every chain from the genesis block and inside every block, at whatever input the loop of CheckInputs is, its range checks do not reject when the inputs so far are mature |
| `RangeChecks.InputsOkInBlock` | src/main.cpp:1547-1589 | so there CheckInputs accepts if and only if the inputs are available and mature and cover the outputs |
| `Replay.DisconnectLast` | src/main.cpp:1972-1987 | disconnecting the last block of any connected path gives the replay of the path without it if and only if the block overwrote only what it had spent before |
| `Replay.UndoableIff` | src/main.cpp:1779-1789 | for a block to which BIP 30 applies that is always so, and for an exempt block exactly if the condition holds that the chain state asks of it |
| `Unwinding.UnwoundMarked` | src/main.cpp:2126-2130 | disconnecting any number of blocks of a chain with their undo files works, and exactly the records of which a disconnected block spent the last output have their versions as they are read back |
| `Unwinding.LastSpentFromIff` | src/main.cpp:2126-2130 | which these are can be told from the blocks: those of which some block spends all that is left |
| `Unwinding.UnwindingExactIff` | src/main.cpp:2126-2130 | disconnecting the blocks above any height leads to the replay of the chain up to there, up to versions that were negative, and exactly to it if and only if no disconnected block had spent all that was left of a record with a negative version that is there again |
| `BlockTree.PathPrefix` | src/main.h:1029-1033 | each block of a path is at its height and the path to it is a prefix |
| `BlockTree.ContainsPrefix` | src/main.h:1029-1033 | a path array that holds a block at its height holds the whole path to it |
| `BlockTree.ValidAncestor` | src/main.cpp:2081-2082 | an ancestor of a block whose path is valid has a valid path |
| `BlockTree.ValidStep` | src/main.cpp:2014-2033 | a path stays valid with one more block exactly when ConnectBlock accepts the block on its replay |
| `BlockTree.GetBlockWork` | src/main.h:815-822 | 2^256 divided by one more than the target, rounded down, and nothing for a target that is not positive |
| `BlockTree.ChainWorkIsSum` | src/main.cpp:2185-2185 | the chain work noted at a block is the sum of the works of all blocks up to it |
| `BlockTree.MoreWorkThanAncestors` | src/main.cpp:2185-2185 | so no block has less than one below it, and more if its own target is positive and below 2^256 |
| `BlockTree.BestExists` | src/main.cpp:80-99 | under the work comparator every set of blocks that is not empty has one that no other is better than: none has more chain work, or as much and was there before it |
| `ChainArray.Chain.SetTip` | src/main.cpp:353-364 | the array becomes exactly the path of the new tip though the loop stops early, and the block returned is the last one both paths share |
| `ChainArray.Chain.FillBack` | src/main.cpp:358-362 | the loop writes back from the tip and stops at the first place that already is right |
| `ChainArray.Chain.GetLocator` | src/main.cpp:366-391 | returns a locator of the block: entries 1 apart at first, then twice as far each, down to the genesis block |
| `ChainArray.Chain.Ancestor` | src/main.cpp:378-385 | going back by parents until the chain takes over, then by height, gives the block of the path at that height |
| `ChainArray.Chain.FindFork` | src/main.cpp:393-405 | the first entry known here and in this chain, or else, when there is none, the genesis block |
| `ChainArray.OffsetStep` | src/main.cpp:378-387 | the distance between entries is 1 up to the eleventh entry and doubles after it |
| `ChainArray.LocatorStep` | src/main.cpp:373-388 | one round of GetLocator adds the entry at the next offset of the path |
| `ChainArray.LocatorDescends` | src/main.cpp:366-391 | a locator starts at the block, ends at the genesis block and goes strictly down |
| `ChainArray.OffsetReaches` | src/main.cpp:378-387 | the first entry at least d back is at most 2d back, and exactly d back when d is at most 11 |
| `ChainArray.ContainedIffShared` | src/main.cpp:393-405 | a block of another node's path is in this chain exactly when it is not above the fork |
| `ChainArray.FindForkDistance` | src/main.cpp:393-405 | when this chain leaves the path d blocks back, FindFork finds a common block r back with d <= r <= 2d, and r = d when d is at most 11 |
| `BestChain.FindFailed` | src/main.cpp:2081-2099 | finds the last failed block on the path of a candidate exactly when there is one, though it only looks back to the active chain |
| `BestChain.InvalidDescendant` | src/main.cpp:2086-2095 | flagging descendants is sound: a block after one with an invalid path has none either |
| `BestChain.ConnectedStep` | src/main.cpp:2014-2033 | connecting an accepted block keeps: the coins are, up to versions read back from disk, the replay of the active chain, and its undo file holds the undo data of the replay as they are read back |
| `BestChain.UndoOfActive` | src/main.cpp:1877-1890 | the undo file of every active block holds the undo data of the replay of the chain up to it, as they are read back |
| `BestChain.RefusedStep` | src/main.cpp:2026-2030 | a refused block has no valid path in the tree, so that flagging it is right forever |
| `BestChain.DisconnectedStep` | src/main.cpp:1972-1987 | disconnecting the tip of a connected chain with its undo file leads back to the replay without it, up to versions read back from disk, and cannot fail, when an exempt tip overwrote only what it had spent |
| `BestChain.GoodConnected` | src/main.cpp:2014-2048 | connecting the next block keeps the invariant of the whole chain state |
| `BestChain.GoodDisconnected` | src/main.cpp:1972-2004 | disconnecting the tip keeps it |
| `BestChain.UndoableGrow` | src/main.cpp:2177-2192 | a new block leaves the condition on exempt blocks as it is for all others |
| `BestChain.GoodGrown` | src/main.cpp:2177-2192 | adding a block to the tree and to the candidates keeps it |
| `BestChain.CandidateOrFailed` | src/main.cpp:2067-2070 | a block of the tree is a candidate if and only if it carries no failure flag |
| `BestChain.KeepTip` | src/main.cpp:2106-2108 | keeping the most-work tip that the best candidate does not beat is right |
| `BestChain.GoodMaximal` | src/main.cpp:2132-2148 | when the most-work chain is active, no block whose path is valid is better than the tip |
| `BestChain.MaximalMostWork` | src/main.cpp:80-99 | no valid block being better under the comparator means that none has more chain work, or as much and a lower sequence number |
| `BestChain.NewestLast` | src/main.cpp:2172-2185 | with blocks numbered as they come, a new block is the tip only if it has more work than every valid block that was there |
| `BestChain.ChainState.constructor` | src/main.cpp:41-43 | the empty chain state satisfies the invariant |
| `BestChain.ChainState.InvalidBlockFound` | src/main.cpp:1469-1486 | flags the block, drops it from the candidates and keeps the invariant; the invalid block remembered has at least its work |
| `BestChain.ChainState.NoteInvalid` | src/main.cpp:1448-1452 | the invalid block remembered is the one there was or the new one, and has at least the work of both |
| `BestChain.ChainState.TryConnect` | src/main.cpp:2022-2030 | a block is tried on a cache of its own, and the coin cache shows the same whatever comes of it |
| `BestChain.ChainState.TryDisconnect` | src/main.cpp:1982-1987 | the same for disconnecting |
| `BestChain.ChainState.Adopt` | src/main.cpp:2031-2048 | flushing the finished cache, to the database as well or not yet, and moving the tip gives the new chain state, up to versions read back from disk |
| `BestChain.ChainState.AcceptBlock` | src/main.cpp:1877-1897 | the undo file of an accepted block is written, its cache written through, and the block is the tip; the invariant holds |
| `BestChain.ChainState.WriteUndo` | src/main.cpp:1877-1897 | the undo file of a block is written as it will be read back, and kept when there is one |
| `BestChain.ChainState.ConnectTip` | src/main.cpp:2014-2059 | appends the block when its path is valid; otherwise flags it and leaves the active chain and the coins alone |
| `BestChain.ChainState.DisconnectTip` | src/main.cpp:1972-2011 | always succeeds above the genesis block and drops exactly the tip |
| `BestChain.ChainState.PeelFailed` | src/main.cpp:2066-2070 | drops exactly failed blocks from the end of the most-work chain, until its tip is not flagged; the erasing changes no candidate, since flagged blocks are none |
| `BestChain.ChainState.MarkFailedChild` | src/main.cpp:2086-2095 | exactly the blocks of the path after the failed one are flagged and dropped from the candidates, the candidate itself among them, so that the search ends even when the flag was on an ancestor |
| `BestChain.ChainState.BestCandidate` | src/main.cpp:2073-2079 | the candidate that no other is better than |
| `BestChain.ChainState.TryCandidate` | src/main.cpp:2081-2101 | accepts a candidate exactly with a path free of flags, and otherwise flags and loses the blocks after a failed one |
| `BestChain.ChainState.FindCandidate` | src/main.cpp:2072-2104 | ends, with the best candidate whose path is free of flags, or with no candidate left |
| `BestChain.ChainState.FindMostWorkChain` | src/main.cpp:2063-2112 | the most-work tip is at least as good as every candidate left; either its path is free of flags or candidates were lost, which is the case of a retried bad block |
| `BestChain.ChainState.DisconnectToMostWork` | src/main.cpp:2126-2130 | ends with the active chain a prefix of the most-work chain and never disconnects the genesis block |
| `BestChain.ChainState.ConnectToMostWork` | src/main.cpp:2132-2148 | ends with the two chains equal, or with a block refused that lost a candidate or was known to be bad |
| `BestChain.ChainState.MoveToMostWork` | src/main.cpp:2126-2148 | both loops together |
| `BestChain.ChainState.TryMostWork` | src/main.cpp:2126-2149 | connects the most-work chain, and then the tip is maximal; or a block was refused that lost a candidate or was known to be bad |
| `BestChain.ChainState.ActivateStep` | src/main.cpp:2119-2149 | one round ends the loop with a maximal tip or loses a candidate |
| `BestChain.ChainState.ActivateBestChain` | src/main.cpp:2115-2161 | ends, and then no block whose whole path is valid is better than the active tip: none has more chain work, and none with as much has a lower sequence number; the tip itself has a valid path |
| `BestChain.ChainState.InsertBlock` | src/main.cpp:2172-2197 | the half of AddToBlockIndex that puts the block in the tree and among the candidates |
| `BestChain.ChainState.AddToBlockIndex` | src/main.cpp:2163-2218 | refuses a known block without any change; otherwise the tree has one more block, on its parent, one higher, with the chain work of the parent and its own, under the next number; the active tip has the most work again, and is the new block only if that has more than every valid block there was; a block exempt from BIP 30 must overwrite only what it has spent, for else disconnecting it would lose a record |
| `BestChain.ActiveUnflagged` | src/main.cpp:2082-2082 | all blocks of the active chain have valid paths and no flag |
| `BestChain.CoinsDependOnTipOnly` | src/main.cpp:2115-2149 | any two histories with the same tip have the same best block, the same undo files for the active blocks, and coins that are both the replay of the active chain up to versions read back from disk: every record whose version is not negative is the same, whatever was reorganised, refused or flushed on the way |
| `BestChain.ActiveChainSound` | src/main.cpp:2063-2161 | in every reachable state no active block is flagged, and the coins are worth at most the subsidies so far |
| `Merkle.CalcTreeWidth` | src/main.h:534-537 | the number of nodes at a height, by recursive halving |
| `Merkle.WidthIsShift` | src/main.h:535-537 | halving and rounding up once for each height is the same as the one rounded shift |
| `Merkle.CalcHeight` | src/main.cpp:2735-2738 | the least height with one node |
| `Merkle.HeightIsLog` | src/main.cpp:2735-2738 | that height is the logarithm of the number of transactions, rounded up |
| `Merkle.FirstInside` | src/main.h:535-537 | a node is within the width exactly when its first transaction exists |
| `Merkle.HashPairs` | src/core.cpp:226-234 | the inner loop makes the level above, the last node of an odd level paired with itself |
| `Merkle.MerkleBlock.BuildMerkleTree` | src/core.cpp:220-237 | fills the flat tree level by level and returns the recursive Merkle root, or 0 for no transactions |
| `Merkle.LevelAbove` | src/main.cpp:2665-2680 | hashing a level in pairs gives the recursive hashes of the level above, odd levels included |
| `Merkle.FlatEndsInRoot` | src/core.cpp:236-236 | the last entry of the flat tree is the root of the recursive definition |
| `Merkle.MerkleBlock.GetMerkleBranch` | src/core.cpp:239-253 | reads the siblings on the way up from the flat tree, building it when needed |
| `Merkle.CheckMerkleBranch` | src/core.cpp:255-268 | climbs the branch by the bits of the index; 0 for index -1 |
| `Merkle.BranchReachesRoot` | src/core.cpp:239-268 | from any level, climbing the branch of a position reaches the root, and the branch has one hash for each level |
| `Merkle.OwnBranchChecks` | src/core.cpp:239-268 | checking a transaction with its own branch gives the Merkle root, for every index |
| `Merkle.BranchChecksIff` | src/core.cpp:255-268 | with an injective node hash, a branch of the right length leads to the root if and only if it is the branch of that very transaction |
| `Merkle.ClimbFixesLevel` | src/core.cpp:255-268 | the same from any level |
| `Merkle.RootFixesIds` | src/core.cpp:220-237 | with an injective node hash and a known number of transactions, equal roots mean equal lists of ids |
| `PartialMerkle.PartialMerkleTree.CalcHash` | src/main.cpp:2665-2680 | the recursive hash of a node |
| `PartialMerkle.PartialMerkleTree.ParentOfMatch` | src/main.cpp:2683-2686 | the scan over the range of leaves finds whether a marked transaction is below the node |
| `PartialMerkle.BelowIsSelected` | src/main.cpp:2683-2686 | what is marked below a node, by recursion over its children, is what is marked in its range of leaves |
| `PartialMerkle.PartialMerkleTree.TraverseAndBuild` | src/main.cpp:2682-2698 | appends the bits and hashes of the node |
| `PartialMerkle.PartialMerkleTree.Build` | src/main.cpp:2730-2742 | the partial tree of a block and a selection of any of its transactions |
| `PartialMerkle.PartialMerkleTree.TraverseAndExtract` | src/main.cpp:2700-2728 | reads exactly what the reading function does; the failure flag is set exactly when bits or hashes run out |
| `PartialMerkle.PartialMerkleTree.ExtractMatches` | src/main.cpp:2746-2777 | returns the root and the matches of the reading function, or 0 when any of its checks fails; with an injective node hash, a root that is not 0 means that the matches are, in order, transactions of any block with that root and that number of transactions |
| `PartialMerkle.BuiltReadsBack` | src/main.cpp:2682-2728 | reading what was built for a node returns its hash and the marked transactions below it, and leaves what follows |
| `PartialMerkle.BuiltExtracts` | src/main.cpp:2730-2777 | for 1 to 16666 transactions and any selection, extraction from the built tree, padded to whole bytes or not, returns the Merkle root and exactly the selected transactions in order |
| `PartialMerkle.BuiltSize` | src/main.h:503-516 | at every node: the bounds on the hashes, and exactly two bits a hash less one and one more for each node with one child that is descended |
| `PartialMerkle.OneChildAtMost` | src/main.cpp:2693-2697 | there is at most one such node at each height, and none below a node that is not the last |
| `PartialMerkle.BuiltTreeSize` | src/main.h:505-516 | at most one hash a transaction, at most one plus height times matches, and exactly 2N-1 bits for N hashes plus the nodes with one child that are descended |
| `PartialMerkle.PackBits` | src/main.h:564-566 | packs bits into bytes, least significant first |
| `PartialMerkle.UnpackBits` | src/main.h:559-561 | reads eight bits of each byte |
| `PartialMerkle.PackedExtracts` | src/main.h:552-569 | the tree after its bits went through bytes is still accepted, with the same root and matches |
| `PartialMerkle.ExtractSplit` | src/main.cpp:2716-2727 | with an injective node hash, a true hash at a node means true hashes at its children |
| `PartialMerkle.ExtractSound` | src/main.cpp:2700-2728 | wherever a node reads with its true hash, the matches are distinct transactions below it, in order |
| `PartialMerkle.AcceptedMatchesAreInBlock` | src/main.cpp:2746-2777 | whatever bits and hashes a peer sends: when they lead to the root of the block, every match is a transaction of the block at a place of its own, in order |
| `PartialMerkleSize.SizeFromMarks` | src/main.cpp:2682-2698 | the hashes of the built tree and its nodes with one child are the numbers computed from the marks |
| `PartialMerkleSize.OneChildIff` | src/main.cpp:2693-2697 | no node with one child is descended exactly if nothing is marked below a last node with one child |
| `PartialMerkleSize.DocumentedBoundIff` | src/main.h:516-516 | the documented bound of 2N-1 bits is met if and only if, at every height where the level below is odd, no transaction below the last node is marked |
| `PartialMerkleSize.BitsExceedDocumentedBound` | src/main.h:516-516 | an input that fails: marking the third of three transactions takes two hashes and four bits |
| `PartialMerkleSize.DocumentedSizeIff` | src/main.h:500-503 | for a block of any size and any selection: with N hashes and k marked nodes with one child, both computed from the number of transactions and the marks alone, the documented guarantee on the serialized size holds if and only if 2N-1+k is at most 2016 or at most eight times a quarter of N, rounded up |
| `PartialMerkleSize.SizeExceedsDocumentedBound` | src/main.h:500-503 | an input that fails: marking all of 1028 transactions takes one byte more |
| `CheckQueue.BatchSize` | src/checkqueue.h:103-103 | at least one check and never more than are queued; when more than one, no more than the limit nor than an equal share for every thread and one more, and otherwise as many as these allow |
| `CheckQueue.InitInv` | src/checkqueue.h:124-125 | a new queue satisfies the invariant for any number of workers, none included |
| `CheckQueue.AddKeeps` | src/checkqueue.h:138-149 | adding checks keeps it: what is to do is what is queued plus all batches not accounted for |
| `CheckQueue.AccountKeeps` | src/checkqueue.h:72-78 | merging the result of a batch keeps it, and the master is told when nothing is left to do |
| `CheckQueue.LockKeeps` | src/checkqueue.h:69-82 | so does entering the critical section |
| `CheckQueue.DecideKeeps` | src/checkqueue.h:84-113 | so does returning, waiting or taking a batch |
| `CheckQueue.TakeKeeps` | src/checkqueue.h:98-112 | taking a batch, with the result so far, keeps what all checks added come to |
| `CheckQueue.WakeKeeps` | src/checkqueue.h:94-96 | so does waking up, spuriously or not |
| `CheckQueue.RunKeeps` | src/checkqueue.h:115-118 | so does running a check, or skipping it after a failure |
| `CheckQueue.StepKeeps` | src/checkqueue.h:63-149 | every step of every thread keeps the invariant |
| `CheckQueue.After` | src/checkqueue.h:63-149 | so does every run |
| `CheckQueue.WaitIsExact` | src/checkqueue.h:84-93 | Wait returns only with nothing queued and no batch outstanding, and returns true exactly when every check added since the last Wait passes; the queue is then as good as new |
| `CheckQueue.ControlAssertionsIff` | src/checkqueue.h:166-173 | before a new batch, nothing is to do and no failure is held over; the counts of the constructor's assertion agree if and only if no worker is inside its critical section, which the assertion does not lock out |
| `CheckQueue.CountsCanDiffer` | src/checkqueue.h:166-173 | a run of two steps after which that assertion, made without the lock, would fail |
| `CheckQueue.NoDeadlock` | src/checkqueue.h:63-120 | while the master is in Wait some thread can go on without a spurious wakeup |
| `CheckQueue.UnblockedStepsDecrease` | src/checkqueue.h:63-120 | every such step uses up some of the work left |
| `CheckQueue.WaitReturns` | src/checkqueue.h:133-135 | from every reachable state Wait returns in some run of such steps |
| `CheckQueue.BusyRunsEnd` | src/checkqueue.h:63-120 | no run of such steps is longer than the work left, so Wait returns in whatever order they come |
| `AddrTables.SwapKeeps` | src/addrman.cpp:108-126 | exchanging two places of the random order keeps all tables consistent; both ids are known |
| `AddrTables.TouchKeeps` | src/addrman.cpp:279-283 | so does changing the times of an entry |
| `AddrTables.CreateKeeps` | src/addrman.cpp:96-106 | so does a new entry that is about to enter its first bucket |
| `AddrTables.BumpKeeps` | src/addrman.cpp:358-364 | so does counting one more reference, up to four, before the entry is in the bucket |
| `AddrTables.EnterKeeps` | src/addrman.cpp:365-365 | entering a bucket with room squares the reference count again |
| `AddrTables.LeaveKeeps` | src/addrman.cpp:163-171 | leaving one of several buckets keeps the tables consistent |
| `AddrTables.DeleteKeeps` | src/addrman.cpp:163-171 | so does forgetting an entry with its last reference |
| `AddrTables.PlacedKeeps` | src/addrman.cpp:210-231 | so does moving an entry to a tried bucket with room |
| `AddrTables.ReplacedKeeps` | src/addrman.cpp:233-261 | so does exchanging it with a tried entry, which goes to any new bucket that has room without it |
| `AddrTables.TriedSwapKeeps` | src/addrman.cpp:138-141 | so does exchanging two places of a tried bucket |
| `AddrTables.RefCountUpdate` | src/addrman.cpp:152-203 | how one bucket's change changes the number of buckets an entry is in |
| `AddrMan.NewSomewhere` | src/addrman.cpp:289-305 | an entry that is not tried is in some new bucket: the bail-out in Good never happens |
| `AddrMan.AddrMan.constructor` | src/addrman.h:383-391 | an empty address manager is consistent |
| `AddrMan.AddrMan.Find` | src/addrman.cpp:83-94 | finds the entry of an address, whatever the port |
| `AddrMan.AddrMan.SwapRandom` | src/addrman.cpp:108-126 | exactly two places are exchanged, no entry changes otherwise, and both assertions hold |
| `AddrMan.AddrMan.RemoveNew` | src/addrman.cpp:164-172 | exactly this entry loses exactly this reference, and is forgotten with its last |
| `AddrMan.AddrMan.FindTerrible` | src/addrman.cpp:157-175 | a terrible entry of the bucket, if and only if it has one |
| `AddrMan.Terrible` | src/addrman.cpp:41-59 | an entry not tried in the last minute that is dated ahead, or not seen in 30 days, or failed three times without ever working, or ten times in a week |
| `AddrMan.AddrMan.ShrinkNew` | src/addrman.cpp:152-203 | one member leaves the bucket: a terrible one exactly when there is one, and else the one seen longest ago of the four drawn; nothing else is lost |
| `AddrMan.AddrMan.PickOldest` | src/addrman.cpp:177-191 | draws four places, and returns the member at one of them that was seen longest ago |
| `AddrMan.DrawNext` | src/addrman.cpp:138-141 | a draw exchanges one place behind those drawn before, which stay where they are |
| `AddrMan.AddrMan.SelectTried` | src/addrman.cpp:128-150 | the bucket after the draws, with the same members; the first of the entries drawn, now at the front, that was seen to work longest ago is at a place w, and the place returned is the one it was drawn from; that holds this entry if and only if it is place w |
| `AddrMan.SelectsAnother` | src/addrman.cpp:138-145 | an input where it does not: the oldest of four is drawn from the fifth place, and the place returned holds an entry seen to work more recently |
| `AddrMan.AddrMan.OldestOf` | src/addrman.cpp:177-190 | of the members at the places drawn, one seen longest ago |
| `AddrMan.AddrMan.LeaveAllNew` | src/addrman.cpp:210-218 | takes the entry out of every new bucket, and the count of its references comes to 0 as asserted |
| `AddrMan.AddrMan.MakeTried` | src/addrman.cpp:206-262 | the whole new state: the entry is in its tried bucket, or, when that is full, at the place SelectTried returns, and the entry that was there after the draws is in the new bucket for it, or else in the one given |
| `AddrMan.AddrMan.ReplaceTried` | src/addrman.cpp:233-261 | the same for a full bucket |
| `AddrMan.MovedBecomes` | src/addrman.cpp:206-262 | so no entry is lost, one entry of the bucket goes back exactly if it is full, and nothing else changes |
| `AddrMan.AddrMan.EvictAndPlace` | src/addrman.cpp:236-261 | the whole new state: the evicted entry always finds room, in the bucket for it or else in the one given, which the moved entry has left |
| `AddrMan.AddrMan.FindBucket` | src/addrman.cpp:289-301 | finds a bucket that holds the entry, from any place to start |
| `AddrMan.AddrMan.Good_` | src/addrman.cpp:264-311 | an address known with that port is noted and ends up tried, exchanged for at most one other; otherwise nothing changes |
| `AddrMan.AddrMan.Attempt_` | src/addrman.cpp:370-387 | counts an attempt at exactly the known entry with that port |
| `AddrMan.AddrMan.Connected_` | src/addrman.cpp:509-527 | moves the time of exactly that entry, and only after twenty minutes |
| `AddrMan.AddrMan.Create` | src/addrman.cpp:96-106 | the new entry under the next id, found by its address, last in the random order |
| `AddrMan.AddrMan.Refresh` | src/addrman.cpp:324-350 | updates time and services of a known entry; another bucket only for news, not for tried entries, and never beyond four |
| `AddrMan.WantsMore` | src/addrman.cpp:333-350 | the chance test never refuses an entry without references and never passes a full one |
| `AddrMan.ChanceFactor` | src/addrman.cpp:346-350 | every reference an entry has halves its chance for another |
| `AddrMan.AddrMan.PutNew` | src/addrman.cpp:358-366 | the entry is in the bucket with one reference more; at most one other entry is affected, and none that is tried |
| `AddrMan.AddrMan.Add_` | src/addrman.cpp:313-368 | an unknown address is added as reported, in the bucket for it and its source and in no other; a known one gets the services of the report as well, its time exactly when the old one is unknown or lies more than an hour, or a day for a report that is older than a day, and the penalty before it, and at most one bucket more; apart from one victim of a full bucket no other entry changes |
| `AddrMan.AddrMan.AddKnown` | src/addrman.cpp:320-366 | the known half |
| `AddrMan.AddrMan.AddUnknown` | src/addrman.cpp:351-366 | the unknown half |
| `AddrMan.AddrMan.TakeRandom` | src/addrman.cpp:500-505 | draws one more entry into the shuffled front; no entry changes but for its place |
| `AddrMan.AddrMan.GetAddr_` | src/addrman.cpp:493-507 | as many entries as 23 percent, rounded down, and 2500 allow, none twice, and only the order of entries changes: every field but the place stays |
| `AddrMan.AddrMan.CheckEntry` | src/addrman.cpp:443-459 | 0 exactly for an entry that meets every condition asked of it |
| `AddrMan.AddrMan.CheckInfos` | src/addrman.cpp:441-460 | 0 exactly if all entries pass, and then it has collected exactly the tried ids and the reference counts |
| `AddrMan.AddrMan.CheckTried` | src/addrman.cpp:465-473 | 0 exactly if the tried buckets hold no entry that is not tried and none twice; what is left is what they do not hold |
| `AddrMan.AddrMan.CheckNew` | src/addrman.cpp:475-484 | 0 exactly if no entry is in more new buckets than it counts; what is left are the counts that were not met |
| `AddrMan.AddrMan.Check_` | src/addrman.cpp:434-490 | for any state: 0 if and only if the entries pass, the counters fit, the tried buckets hold each tried entry once and the new buckets each other entry as often as it counts; hence 0 in every reachable state |
| `AddrChecks.ConsistentPasses` | src/addrman.cpp:434-490 | every state that satisfies the invariant passes the check |
| `AddrCodec.Write` | src/addrman.h:280-318 | writes the new entries, the tried entries, and every bucket of new addresses by the numbers of its members |
| `AddrCodec.WriteNew` | src/addrman.h:284-296 | writes exactly the entries that are not tried, numbered in order, though tried ones get numbers as well |
| `AddrCodec.WriteTried` | src/addrman.h:297-307 | writes exactly the tried entries |
| `AddrCodec.WriteBucket` | src/addrman.h:308-318 | the numbers of exactly the members of a bucket |
| `AddrCodec.WrittenOk` | src/addrman.h:280-318 | a written file loses nothing when it is read: distinct addresses, no tried bucket overfull, one to four references each |
| `AddrCodec.ReadNew` | src/addrman.h:328-341 | rebuilds ids, address map and random order for the new entries; when the file has another number of buckets, each is put in the bucket that the key gives |
| `AddrCodec.ReadOneTried` | src/addrman.h:343-360 | rebuilds a tried entry in its bucket; none is lost from a written file |
| `AddrCodec.ReadTried` | src/addrman.h:342-361 | all of them |
| `AddrCodec.ReadPlace` | src/addrman.h:367-377 | one index: the entry gets its reference back, when the number of buckets did not change |
| `AddrCodec.RefStep` | src/addrman.h:371-376 | the limit of four references never refuses one from a written file |
| `AddrCodec.ReadConsistent` | src/addrman.h:319-379 | what is rebuilt satisfies the full invariant |
| `AddrCodec.Read` | src/addrman.h:319-379 | reading any file that loses nothing gives a consistent manager with exactly the contents of the file; with another number of buckets in it, every new entry is in the one bucket that the key of the file gives |
| `AddrCodec.EntrySame` | src/addrman.h:249-381 | each entry comes back with the same address, services, time, time of the last success, attempts, source, references and mark, only the time of the last try is lost, and in the same buckets |
| `AddrCodec.WriteRead` | src/addrman.h:249-381 | writing any consistent manager and reading the file gives the same addresses, the same tried buckets and the same relation of addresses to new buckets |
| `AddrCodec.CopyTo` | src/addrman.h:249-381 | writing one manager and reading the file into any other, whatever its key was, loses nothing; both know the same of every address and have the same buckets |
| `AddrCodec.RehashedOkIff` | src/addrman.h:335-339 | a file with another number of buckets whose entries and tried buckets are in order loses nothing if and only if its key gives no bucket of new addresses more than 64 entries; each is then in exactly one |
| `AmountCodec.CompressAmount` | src/core.cpp:170-187 | the loop computes the compressed amount, in 64-bit arithmetic |
| `AmountCodec.DecompressAmount` | src/core.cpp:189-213 | the loops compute the decompressed amount, in 64-bit arithmetic |
| `AmountCodec.CompressDecompress` | src/core.cpp:170-213 | decompressing a compressed amount gives it back, for every natural number |
| `AmountCodec.DecompressCompress` | src/core.cpp:170-213 | compressing a decompressed number gives it back: the code is one-to-one and onto |
| `AmountCodec.CompressedFits` | src/core.cpp:170-187 | up to MAX_MONEY nothing wraps around |
| `AmountCodec.AmountRoundTrip` | src/core.cpp:170-213 | on 64-bit words every amount up to MAX_MONEY survives |
| `CoinsCodec.CalcMaskSize` | src/coins.cpp:12-28 | the bytes of the bitmask up to its last that is not zero, and how many are not zero |
| `CoinsCodec.MakeMaskByte` | src/coins.h:170-175 | one bit for each of eight outputs that are there |
| `CoinsCodec.Serialize` | src/coins.h:159-185 | the tokens of a record: version, header code, bitmask, outputs that are there, height; a number is the bytes of its variable-length form |
| `CoinsCodec.LastByteUsed` | src/coins.cpp:12-28 | the bitmask ends with the byte of the last output, which is not zero |
| `CoinsCodec.SomethingLeft` | src/coins.h:164-165 | the assertion before the header code holds for every record that is written |
| `CoinsCodec.HeaderBits` | src/coins.h:166-166 | coinbase flag, the first two outputs and the count of bytes can all be read off the header code |
| `CoinsCodec.ReadMaskBytes` | src/coins.h:200-209 | reads bytes until as many as announced were not zero |
| `CoinsCodec.ReadOutputList` | src/coins.h:211-216 | fills in the outputs whose bits are set |
| `CoinsCodec.Unserialize` | src/coins.h:188-219 | reads exactly as the reading function does, failing when the stream ends early |
| `CoinsCodec.MaskRoundTrip` | src/coins.h:170-209 | the count of bytes that are not zero alone tells the reader where the bitmask ends |
| `CoinsCodec.OutputsRoundTrip` | src/coins.h:176-216 | the outputs come back at their places, null where the bit is not set |
| `CoinsCodec.ReadBack` | src/coins.h:158-219 | what is read back of any record in the stored form, whatever follows it: the same record, but for a negative version, of which the last seven bits are kept |
| `CoinsCodec.RoundTripIff` | src/coins.h:158-219 | a record in the stored form comes back exactly if and only if its version is not negative |
| `CoinsCodec.NegativeVersionLost` | src/main.cpp:1660-1662 | an input that fails: version -1 comes back as 127 |
| `VarInt.WriteVarInt` | src/serialize.h:277-292 | the groups of seven bits, most significant first; a negative number has only one |
| `VarInt.ReadVarInt` | src/serialize.h:294-307 | reads as the reading function does, or fails when the stream ends early; for a type that holds the number |
| `VarInt.ReadVarIntAs` | src/serialize.h:294-307 | the same loop in the arithmetic of an unsigned type gives what is left of the number in that type |
| `VarInt.EncodedFitsIff` | src/serialize.h:277-307 | read into an unsigned type, a number comes back if and only if it fits |
| `VarInt.EncodedDecoded` | src/serialize.h:277-307 | a written number is read back, whatever follows it, if and only if it is not negative |
| `VarInt.DecodedEncoded` | src/serialize.h:277-307 | no number has two forms: bytes that are read as a number are the ones that are written for it |
| `UndoCodec.WriteUndo` | src/core.h:304-310 | the tokens of undo data: height and coinbase flag, the version only with a height, the output |
| `UndoCodec.ReadUndo` | src/core.h:312-321 | reads as the reading function does, or fails when the stream ends early |
| `UndoCodec.UndoReadBack` | src/core.h:304-321 | what is read back of any undo data with an output in money range |
| `UndoCodec.UndoRoundTripIff` | src/core.h:304-321 | the undo data of a spend come back exactly if and only if the version is not negative or an output was left |
| `UndoCodec.StoredUndoRestores` | src/main.cpp:1676-1699 | from undo data that were stored, the record is restored exactly if and only if its version was not negative or an output was left; the rest of it always is |
| `UndoCodec.StoredRecordMatches` | src/main.cpp:1657-1666 | DisconnectBlock accepts the stored record of a transaction of any version, negative ones included, as the one it made |
| `Base58.EightBytes` | src/base58.cpp:74-74 | 256^8 is at most 58^11 |
| `Base58.SeventyOneDigits` | src/base58.cpp:32-32 | 58^71 is at most 256^52 |
| `Base58.EncodeFits` | src/base58.cpp:74-74 | for every length the buffer of n * 138 / 100 + 1 digits holds n bytes |
| `Base58.DecodeFits` | src/base58.cpp:32-32 | for every length the buffer of n * 733 / 1000 + 1 bytes holds n digits |
| `Base58.MulAdd` | src/base58.cpp:39-45 | the loop over a buffer in place multiplies the number in it and adds a digit; what does not fit is the carry |
| `Base58.Push` | src/base58.cpp:39-46 | in a buffer of that size the carry comes to 0, so that neither assertion fails |
| `Base58.EncodeBase58` | src/base58.cpp:66-98 | writes the text with the same number of leading zeros and the same value |
| `Base58.DecodeBase58` | src/base58.cpp:21-64 | accepts exactly one word of the alphabet with spaces around it, and returns the bytes with the same number of leading zeros and the same value |
| `Base58.FromBase58` | src/base58.cpp:31-48 | the conversion loop fails exactly at a character outside the alphabet |
| `Base58.SameUnique` | src/base58.cpp:21-98 | leading zeros and value determine the digits |
| `Base58.TextParsed` | src/base58.cpp:21-98 | the text of any digits is accepted and parsed as those digits |
| `Base58.DecodeOfEncode` | src/base58.cpp:21-98 | the text of any byte string is accepted and decodes to that byte string and no other |
| `Base58.EncodeOfDecode` | src/base58.cpp:21-98 | the bytes of any accepted text without spaces encode to that text and no other |
| `BlockDownload.AtMostOnePeer` | src/main.cpp:265-319 | a hash is queued or in flight at no more than one peer, and not both |
| `BlockDownload.UnqueuedKeeps` | src/main.cpp:266-272 | taking a hash off the queue it is in keeps lists, counters and map in agreement |
| `BlockDownload.LandedKeeps` | src/main.cpp:274-282 | so does taking it off the blocks in flight |
| `BlockDownload.TakenOffKeeps` | src/main.cpp:311-316 | so does putting it in flight |
| `BlockDownload.EnqueuedKeeps` | src/main.cpp:295-300 | so does queuing it |
| `BlockDownload.AgreeGone` | src/main.cpp:255-262 | when a peer goes, erasing the hashes of its lists erases exactly its entries of the maps |
| `BlockDownload.Downloads.constructor` | src/main.cpp:224-230 | at first there are no peers and no hashes |
| `BlockDownload.Downloads.InitializeNode` | src/main.cpp:245-249 | a new peer has empty lists; a known one keeps its state |
| `BlockDownload.Downloads.FinalizeNode` | src/main.cpp:251-262 | exactly the hashes of that peer are forgotten |
| `BlockDownload.Downloads.MarkBlockAsReceived` | src/main.cpp:265-284 | the hash is queued and in flight nowhere, and no other hash is affected |
| `BlockDownload.Downloads.AddBlockToQueue` | src/main.cpp:287-302 | queues a hash exactly when it is nowhere yet and the peer is known, and reports misbehaviour of 10 exactly when the peer then has more than 5000 queued |
| `BlockDownload.Downloads.MarkBlockAsInFlight` | src/main.cpp:304-319 | afterwards the hash is in flight at this peer and nowhere else |
| `BlockDownload.FrontMoves` | src/main.cpp:4407-4410 | one round moves the first queued hash of the peer to its blocks in flight and touches no other peer |
| `BlockDownload.Downloads.SendGetData` | src/main.cpp:4406-4417 | ends; asks for the longest front of the queue that keeps at most 128 blocks in flight, in order |

## Left out

- Disk, undo files, the coin database and the block index file: reads of blocks return what was stored, reads of records and undo data that but for a negative version, the database is a map, and a write always succeeds, so that system errors and `CorruptionPossible` do not arise.
- Reversal.DisconnectRestoresIff: about undo data as connecting makes them, as are Reversal.DisconnectRestores and Replay.DisconnectLast; for those read from a file see `StorageExact.StoredDisconnectIff` and `Unwinding.UnwindingExactIff`.
- Replay.RangeChecksNeverFail: about the set between blocks only; inside a block see `RangeChecks.RangeChecksInBlock`.
- Aliasing of records: the source updates a record through a reference into the cache; the model takes it out and stores it again.
- Scripts, signature operations, block time, proof of work and the Merkle root in the header: one truth value for each block that is fixed for good, checked together with the rules that are modelled.
- Core.CheckBlock: proof of work, block time, signature operations and the Merkle root in the header are not in its contract but in that truth value.
- Connector.CheckInputs: script verification is not in its contract but in that truth value.
- Sizes in bytes and the length of the coinbase script are given numbers for each transaction and block.
- Transaction and block hashes: the id of a transaction is a field, any assignment of ids to transactions is allowed.
- BestChain.ChainState.AddToBlockIndex: a block exempt from BIP 30 that overwrites a record it has not spent is not added; what the chain state is after such a block was disconnected, with the record lost, is not modelled. `Replay` and `Reversal` cover these blocks.
- Connector.Connect: scripts and signature operations are in that truth value as well, and the mode `fJustCheck` is not modelled.
- Connector.Disconnect: the mode with `pfClean`, which carries on after a mismatch, is not modelled.
- `SetBackend`, the size and statistics of the cache.
- The order of blocks with equal work and sequence number: the source compares addresses in memory, the model hashes.
- Effects of connecting and disconnecting a tip on the memory pool, wallets, notifications and warnings.
- Widths of counters: heights, sequence numbers, ids and the step of a locator do not overflow, and shifts in the width of a tree do not wrap. Amount compression is modelled with its 64-bit words.
- ChainArray.Chain.FindFork: a locator and a tree are inputs, the network message that carries them is not modelled.
- CheckQueue.WaitReturns: that the threads which can go on do go on is assumed of the scheduler; interruption at shutdown is not modelled.
- CheckQueue.BusyRunsEnd: bounds runs without spurious wakeups, of which there may be any number, and without workers that start anew.
- `CCheckQueue` is modelled as steps of a state machine and not as class methods, for a step ends wherever another thread may look at the fields.
- AddrMan.AddrMan.Check_: the check of the source adds an address that is missing to the address table, under 0, while it looks; the model does not.
- `Select_` and `GetChance` of the address manager, which use floating point.
- AddrCodec.Read: places in a file are not negative, and for a file that loses entries no contents are promised.
- The address file is a record of lists and not a stream, so that it cannot end early.
- CoinsCodec.Serialize: a stream is a sequence of tokens, where a number is a token with its bytes, and an output is a token with its compressed amount and its script; the compressed forms of scripts are not modelled.
- VarInt.ReadVarInt: numbers are not cut off, as `VarInt.ReadVarIntAs` does; the codecs of records and undo data take their numbers to fit.
- Base58.DecodeBase58: characters are not negative, and text does not hold a null character.
- The checksum and version bytes of Base58 addresses, which would only add easy members.
- BlockDownload.Downloads.AddBlockToQueue: reports misbehaviour, but what a peer's score leads to is not modelled, nor are orphans, stalling peers and requests for other data.
- Iterators into the lists of a peer are modelled by the hash they point to.
- The target of a block is a given number; its compact form and the rules for difficulty are not modelled.
