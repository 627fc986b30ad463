/**
 The unspent outputs as a function of a path of blocks from the genesis block.
 */
module Replay {
  import opened Core
  import opened Utxo
  import opened Reversal
  import opened Supply

  /** The set after connecting a path of blocks, or nothing if one of them is not accepted. */
  function Replayed(path: seq<Block>): Option<UtxoSet>
    decreases |path|, 1
  {
    if path == [] then Some(map[])
    else
      match LastConnected(path)
      case None => None
      case Some(c) => Some(c.utxo)
  }

  /** What connecting the last block of a path leads to. */
  function LastConnected(path: seq<Block>): Option<Connected>
    requires path != []
    decreases |path|, 0
  {
    match Replayed(path[..|path| - 1])
    case None => None
    case Some(u) => ConnectBlock(u, path[|path| - 1], |path| - 1)
  }

  /** The undo data written when the last block of a path is connected. */
  function UndoFor(path: seq<Block>): seq<TxUndo>
    requires path != [] && Replayed(path).Some?
  {
    LastConnected(path).value.undo
  }

  /** The genesis block first and nowhere else. */
  predicate FromGenesis(path: seq<Block>) {
    && (path != [] ==> path[0].hash == GENESIS_HASH)
    && forall i :: 1 <= i < |path| ==> path[i].hash != GENESIS_HASH
  }

  /** If the last block of a path is one that BIP 30 does not apply to, it overwrites only records
      that it has spent before. */
  ghost predicate Undoable(path: seq<Block>) {
    && |path| > 1 && Replayed(path).Some? && Replayed(path[..|path| - 1]).Some?
    && Bip30Exempt(|path| - 1, path[|path| - 1].hash)
    ==> OverwritesOnlySpent(Replayed(path[..|path| - 1]).value, path[|path| - 1].vtx)
  }

  /** Connecting one more block. */
  lemma {:induction false} ReplayedSnoc(path: seq<Block>, b: Block, u: UtxoSet)
    requires Replayed(path) == Some(u)
    ensures Replayed(path + [b]) ==
      match ConnectBlock(u, b, |path|)
      case None => None
      case Some(c) => Some(c.utxo)
    ensures ConnectBlock(u, b, |path|).Some? ==>
              UndoFor(path + [b]) == ConnectBlock(u, b, |path|).value.undo
  {
    assert (path + [b])[..|path|] == path;
  }

  lemma {:induction false} ReplayedPrefix(path: seq<Block>, k: nat)
    requires k <= |path| && Replayed(path).Some?
    ensures Replayed(path[..k]).Some?
  {
    if k == |path| {
      assert path[..k] == path;
    } else {
      assert path[..|path| - 1][..k] == path[..k];
      ReplayedPrefix(path[..|path| - 1], k);
    }
  }

  lemma {:induction false} FrontFromGenesis(path: seq<Block>)
    requires FromGenesis(path) && path != []
    ensures FromGenesis(path[..|path| - 1])
  {}

  /** What a path can leave: records in the stored form, worth at most the subsidies so far. */
  lemma {:induction false} ReplayedSupply(path: seq<Block>)
    requires FromGenesis(path) && Replayed(path).Some?
    ensures Wf(Replayed(path).value)
    ensures Total(Replayed(path).value) <= if path == [] then 0 else SubsidiesTo(|path| - 1)
  {
    if path != [] {
      var front, last, nHeight := path[..|path| - 1], path[|path| - 1], |path| - 1;
      FrontFromGenesis(path);
      ReplayedSupply(front);
      if nHeight > 0 {
        var q := Accepted(Replayed(front).value, last, nHeight);
        TotalConnectBlock(Replayed(front).value, last, nHeight);
      }
    }
  }

  /** Between the blocks of any chain the whole set is worth less than 17,280,000 coins, and so range
      checks of outputs in it cannot fail. RangeChecks is about the sets inside a block. */
  lemma {:induction false} RangeChecksNeverFail(path: seq<Block>, vin: seq<OutPoint>, k: nat)
    requires FromGenesis(path) && Replayed(path).Some?
    requires HaveInputs(Replayed(path).value, vin) && DistinctInputs(vin) && k <= |vin|
    ensures Total(Replayed(path).value) < 17_280_000 * COIN < MAX_MONEY
    ensures HaveInputs(Replayed(path).value, vin[..k]) && MoneyRange(ValueIn(Replayed(path).value, vin[..k]))
    ensures k < |vin| ==> MoneyRange(OutputFor(Replayed(path).value, vin[k]).nValue)
  {
    ReplayedSupply(path);
    SubsidiesBelowMaxMoney(if path == [] then 0 else |path| - 1);
    InputRangeChecksPass(Replayed(path).value, vin, k);
  }

  /** Disconnecting the last block, with the undo data written for it, leads back to the path
      without it exactly when the block overwrote only what it had spent before. */
  lemma {:induction false} DisconnectLast(path: seq<Block>)
    requires FromGenesis(path) && |path| > 1 && Replayed(path).Some?
    ensures Replayed(path[..|path| - 1]).Some?
    ensures DisconnectBlock(Replayed(path).value, path[|path| - 1], UndoFor(path), |path| - 1)
            == Replayed(path[..|path| - 1])
            <==> OverwritesOnlySpent(Replayed(path[..|path| - 1]).value, path[|path| - 1].vtx)
  {
    FrontFromGenesis(path);
    ReplayedSupply(path[..|path| - 1]);
    DisconnectRestoresIff(Replayed(path[..|path| - 1]).value, path[|path| - 1], |path| - 1);
  }

  /** This is always so for a block to which BIP 30 applies, and for no other unless it is checked. */
  lemma {:induction false} UndoableIff(path: seq<Block>)
    requires FromGenesis(path) && |path| > 1 && Replayed(path).Some?
    ensures Undoable(path) <==>
            DisconnectBlock(Replayed(path).value, path[|path| - 1], UndoFor(path), |path| - 1)
            == Replayed(path[..|path| - 1])
  {
    DisconnectLast(path);
    FrontFromGenesis(path);
    ReplayedSupply(path[..|path| - 1]);
    if !Bip30Exempt(|path| - 1, path[|path| - 1].hash) {
      DisconnectRestores(Replayed(path[..|path| - 1]).value, path[|path| - 1], |path| - 1);
    }
  }
}
