/**
 The tree of known blocks (CBlockIndex in src/main.h, mapBlockIndex and the work comparator in
 src/main.cpp). A block is referred to by its hash, and the null pointer is 0.
 */
module BlockTree {
  import opened Core
  import opened Utxo
  import opened Replay

  const NULL: Hash := 0

  datatype BlockIndex = BlockIndex(block: Block, pprev: Hash, nHeight: nat, nChainWork: nat, nSequenceId: nat)

  type Tree = map<Hash, BlockIndex>

  const TWO_256 := 0x1_0000_0000_0000_0000_0000_0000_0000_0000_0000_0000_0000_0000_0000_0000_0000_0000

  /** How many hashes it takes on average to meet the target of a block. */
  function GetBlockWork(block: Block): (nWork: nat)
    ensures block.nTarget <= 0 ==> nWork == 0
    ensures block.nTarget > 0 ==> nWork * (block.nTarget + 1) <= TWO_256 < (nWork + 1) * (block.nTarget + 1)
  {
    if block.nTarget <= 0 then 0 else TWO_256 / (block.nTarget + 1)
  }

  /** A block hangs on a known block one lower, to whose chain work it adds its own, and only the
      genesis block on none. */
  predicate Linked(t: Tree, h: Hash)
    requires h in t
  {
    && (t[h].pprev == NULL <==> h == GENESIS_HASH)
    && if t[h].pprev == NULL then t[h].nHeight == 0 && t[h].nChainWork == GetBlockWork(t[h].block)
       else && t[h].pprev in t && t[h].nHeight == t[t[h].pprev].nHeight + 1
            && t[h].nChainWork == t[t[h].pprev].nChainWork + GetBlockWork(t[h].block)
  }

  /** A block is known under its hash and passed the checks that need no context. */
  predicate Checked(t: Tree, h: Hash)
    requires h in t
  {
    t[h].block.hash == h && BlockOk(t[h].block)
  }

  predicate TreeOk(t: Tree) {
    && NULL !in t
    && (forall h {:trigger Linked(t, h)} :: h in t ==> Linked(t, h))
    && (forall h {:trigger Checked(t, h)} :: h in t ==> Checked(t, h))
  }

  /** The blocks from the genesis block to h. */
  function Path(t: Tree, h: Hash): (p: seq<Hash>)
    requires TreeOk(t) && h in t
    ensures |p| == t[h].nHeight + 1 && p[|p| - 1] == h
    ensures forall x :: x in p ==> x in t
    decreases t[h].nHeight
  {
    assert Linked(t, h);
    if t[h].pprev == NULL then [h] else Path(t, t[h].pprev) + [h]
  }

  /** A path array: empty, or the blocks from the genesis block to some block. */
  predicate IsPath(t: Tree, p: seq<Hash>)
    requires TreeOk(t)
  {
    p == [] || (p[|p| - 1] in t && p == Path(t, p[|p| - 1]))
  }

  function Tip(p: seq<Hash>): Hash {
    if p == [] then NULL else p[|p| - 1]
  }

  /** Whether a path array holds the block at its height. */
  predicate Contains(t: Tree, p: seq<Hash>, h: Hash)
    requires h in t
  {
    t[h].nHeight < |p| && p[t[h].nHeight] == h
  }

  function Blocks(t: Tree, p: seq<Hash>): (bs: seq<Block>)
    requires forall x :: x in p ==> x in t
    ensures |bs| == |p| && forall i :: 0 <= i < |p| ==> bs[i] == t[p[i]].block
  {
    seq(|p|, i requires 0 <= i < |p| => t[p[i]].block)
  }

  /** Every block up to h is accepted when the path to it is connected. */
  predicate ValidPath(t: Tree, h: Hash)
    requires TreeOk(t) && h in t
  {
    Replayed(Blocks(t, Path(t, h))).Some?
  }

  /** A block that is exempt from BIP 30 overwrites only what it has spent before. */
  ghost predicate UndoableAt(t: Tree, h: Hash)
    requires TreeOk(t) && h in t
  {
    Undoable(Blocks(t, Path(t, h)))
  }

  /** The comparator of the candidate set: less work first, then the later one, then the address,
      for which the hash stands. */
  predicate Worse(t: Tree, a: Hash, b: Hash)
    requires a in t && b in t
  {
    if t[a].nChainWork != t[b].nChainWork then t[a].nChainWork < t[b].nChainWork
    else if t[a].nSequenceId != t[b].nSequenceId then t[a].nSequenceId > t[b].nSequenceId
    else a > b
  }

  // ---- paths ----

  /** Each block of a path is at its height, and the path up to it is a prefix. */
  lemma {:induction false} PathPrefix(t: Tree, h: Hash, i: nat)
    requires TreeOk(t) && h in t && i <= t[h].nHeight
    ensures Path(t, h)[i] in t && t[Path(t, h)[i]].nHeight == i
    ensures Path(t, Path(t, h)[i]) == Path(t, h)[..i + 1]
    decreases t[h].nHeight
  {
    assert Linked(t, h);
    if i < t[h].nHeight {
      PathPrefix(t, t[h].pprev, i);
      assert Path(t, h)[..i + 1] == Path(t, t[h].pprev)[..i + 1];
    } else {
      assert Path(t, h)[..i + 1] == Path(t, h);
    }
  }

  /** Going back along a path by parent pointers. */
  lemma {:induction false} PathParent(t: Tree, h: Hash, i: nat)
    requires TreeOk(t) && h in t && i <= t[h].nHeight
    ensures Path(t, h)[i] in t && t[Path(t, h)[i]].nHeight == i
    ensures t[Path(t, h)[i]].pprev == if i == 0 then NULL else Path(t, h)[i - 1]
  {
    var x := Path(t, h)[i];
    PathPrefix(t, h, i);
    assert Linked(t, x);
    if i > 0 {
      assert Path(t, x)[i - 1] == t[x].pprev;
    }
  }

  /** A path array is a path up to every block it holds. */
  lemma {:induction false} PrefixIsPath(t: Tree, p: seq<Hash>, k: nat)
    requires TreeOk(t) && IsPath(t, p) && k <= |p|
    ensures IsPath(t, p[..k])
    ensures forall x :: x in p ==> x in t
    ensures k > 0 ==> p[k - 1] in t && t[p[k - 1]].nHeight == k - 1 && p[..k] == Path(t, p[k - 1])
  {
    if k > 0 {
      PathPrefix(t, p[|p| - 1], k - 1);
    }
  }

  /** Two paths that agree at one height agree below it. */
  lemma {:induction false} ContainsPrefix(t: Tree, p: seq<Hash>, h: Hash)
    requires TreeOk(t) && IsPath(t, p) && h in t && Contains(t, p, h)
    ensures p[..t[h].nHeight + 1] == Path(t, h)
  {
    PrefixIsPath(t, p, t[h].nHeight + 1);
  }

  lemma {:induction false} TipContained(t: Tree, p: seq<Hash>)
    requires TreeOk(t) && IsPath(t, p) && p != []
    ensures Tip(p) in t && t[Tip(p)].nHeight == |p| - 1 && Contains(t, p, Tip(p))
  {}

  /** All paths start at the genesis block. */
  lemma {:induction false} PathStart(t: Tree, h: Hash)
    requires TreeOk(t) && h in t
    ensures Path(t, h)[0] == GENESIS_HASH
    decreases t[h].nHeight
  {
    assert Linked(t, h);
    if t[h].pprev != NULL {
      PathStart(t, t[h].pprev);
    }
  }

  lemma {:induction false} PathFromGenesis(t: Tree, h: Hash)
    requires TreeOk(t) && h in t
    ensures FromGenesis(Blocks(t, Path(t, h)))
  {
    PathStart(t, h);
    var p := Path(t, h);
    forall i | 1 <= i < |p|
      ensures Blocks(t, p)[i].hash != GENESIS_HASH
    {
      PathPrefix(t, h, i);
      var x := p[i];
      assert Linked(t, x) && Checked(t, x);
    }
    assert Checked(t, p[0]);
  }

  lemma {:induction false} IsPathFromGenesis(t: Tree, p: seq<Hash>)
    requires TreeOk(t) && IsPath(t, p)
    ensures forall x :: x in p ==> x in t
    ensures FromGenesis(Blocks(t, p))
  {
    if p != [] {
      PathFromGenesis(t, Tip(p));
    }
  }

  /** The path of a block is the path of its parent and the block. */
  lemma {:induction false} BlocksSnoc(t: Tree, p: seq<Hash>, h: Hash)
    requires (forall x :: x in p ==> x in t) && h in t
    ensures forall x :: x in p + [h] ==> x in t
    ensures Blocks(t, p + [h]) == Blocks(t, p) + [t[h].block]
  {}

  lemma {:induction false} BlocksPrefix(t: Tree, p: seq<Hash>, k: nat)
    requires (forall x :: x in p ==> x in t) && k <= |p|
    ensures forall x :: x in p[..k] ==> x in t
    ensures Blocks(t, p[..k]) == Blocks(t, p)[..k]
  {}

  /** An ancestor of a block with a valid path has one too. */
  lemma {:induction false} ValidAncestor(t: Tree, h: Hash, i: nat)
    requires TreeOk(t) && h in t && i <= t[h].nHeight && ValidPath(t, h)
    ensures Path(t, h)[i] in t && ValidPath(t, Path(t, h)[i])
  {
    PathPrefix(t, h, i);
    BlocksPrefix(t, Path(t, h), i + 1);
    ReplayedPrefix(Blocks(t, Path(t, h)), i + 1);
  }

  lemma {:induction false} PathSnoc(t: Tree, p: seq<Hash>, h: Hash)
    requires TreeOk(t) && IsPath(t, p) && h in t && t[h].pprev == Tip(p)
    ensures forall x :: x in p ==> x in t
    ensures Path(t, h) == p + [h] && t[h].nHeight == |p|
    ensures IsPath(t, p + [h])
  {
    assert Linked(t, h);
  }

  /** Whether the path stays valid with one more block. */
  lemma {:induction false} ValidStep(t: Tree, p: seq<Hash>, h: Hash, u: UtxoSet)
    requires TreeOk(t) && IsPath(t, p) && h in t && t[h].pprev == Tip(p)
    requires forall x :: x in p ==> x in t
    requires Replayed(Blocks(t, p)) == Some(u)
    ensures IsPath(t, p + [h])
    ensures forall x :: x in p + [h] ==> x in t
    ensures Replayed(Blocks(t, p + [h])) ==
      match ConnectBlock(u, t[h].block, |p|)
      case None => None
      case Some(c) => Some(c.utxo)
    ensures ConnectBlock(u, t[h].block, |p|).Some? ==>
              UndoFor(Blocks(t, p + [h])) == ConnectBlock(u, t[h].block, |p|).value.undo
    ensures ValidPath(t, h) <==> ConnectBlock(u, t[h].block, |p|).Some?
  {
    PathSnoc(t, p, h);
    BlocksSnoc(t, p, h);
    ReplayedSnoc(Blocks(t, p), t[h].block, u);
  }

  // ---- more blocks ----

  /** New blocks change nothing about the paths of the others. */
  lemma {:induction false} PathGrow(t: Tree, t': Tree, h: Hash)
    requires TreeOk(t) && TreeOk(t') && h in t
    requires forall x :: x in t ==> x in t' && t'[x] == t[x]
    ensures Path(t', h) == Path(t, h) && Blocks(t', Path(t', h)) == Blocks(t, Path(t, h))
    decreases t[h].nHeight
  {
    assert Linked(t, h) && Linked(t', h);
    if t[h].pprev != NULL {
      PathGrow(t, t', t[h].pprev);
    }
  }

  // ---- chain work ----

  function WorkOf(blocks: seq<Block>): nat {
    if blocks == [] then 0 else WorkOf(blocks[..|blocks| - 1]) + GetBlockWork(blocks[|blocks| - 1])
  }

  /** The chain work noted at a block is the sum of the works of the blocks up to it. */
  lemma {:induction false} ChainWorkIsSum(t: Tree, h: Hash)
    requires TreeOk(t) && h in t
    ensures t[h].nChainWork == WorkOf(Blocks(t, Path(t, h)))
    decreases t[h].nHeight
  {
    assert Linked(t, h);
    var bs := Blocks(t, Path(t, h));
    if t[h].pprev != NULL {
      ChainWorkIsSum(t, t[h].pprev);
      assert bs[..|bs| - 1] == Blocks(t, Path(t, t[h].pprev));
    } else {
      assert bs[..|bs| - 1] == [];
    }
  }

  /** No block has less chain work than one below it, and more if it adds any work itself, which it
      does exactly when its target is positive and less than 2^256. */
  lemma {:induction false} MoreWorkThanAncestors(t: Tree, h: Hash, i: nat)
    requires TreeOk(t) && h in t && i < t[h].nHeight
    ensures Path(t, h)[i] in t && t[Path(t, h)[i]].nChainWork <= t[h].nChainWork
    ensures 0 < t[h].block.nTarget < TWO_256 ==> t[Path(t, h)[i]].nChainWork < t[h].nChainWork
    decreases t[h].nHeight
  {
    assert Linked(t, h);
    var work, target := GetBlockWork(t[h].block), t[h].block.nTarget;
    assert 0 < target < TWO_256 ==> work > 0;
    if i < t[h].nHeight - 1 {
      MoreWorkThanAncestors(t, t[h].pprev, i);
    } else {
      assert Path(t, h)[i] == t[h].pprev;
    }
  }

  // ---- the comparator ----

  /** A block does not have more work than another, nor as much and was there before it. */
  predicate NoBetter(t: Tree, x: Hash, best: Hash)
    requires x in t && best in t
  {
    && t[x].nChainWork <= t[best].nChainWork
    && (t[x].nChainWork == t[best].nChainWork ==> t[best].nSequenceId <= t[x].nSequenceId)
  }

  lemma {:induction false} WorseNoBetter(t: Tree, x: Hash, best: Hash)
    requires x in t && best in t && (x == best || Worse(t, x, best))
    ensures NoBetter(t, x, best)
  {}

  /** Among some blocks there is one that no other is better than. */
  lemma {:induction false} BestExists(t: Tree, s: set<Hash>)
    requires s != {} && forall x :: x in s ==> x in t
    ensures exists b :: b in s && (forall x :: x in s ==> x == b || Worse(t, x, b)) && forall x :: x in s ==> NoBetter(t, x, b)
    decreases |s|
  {
    var a :| a in s;
    var rest := s - {a};
    assert s == rest + {a};
    if rest == {} {
      assert a in s && forall x :: x in s ==> x == a;
    } else {
      BestExists(t, rest);
      var b :| b in rest && forall x :: x in rest ==> x == b || Worse(t, x, b);
      var best := if Worse(t, a, b) then b else a;
      forall x | x in s ensures (x == best || Worse(t, x, best)) && NoBetter(t, x, best) {
        assert x == a || x in rest;
      }
    }
  }
}
