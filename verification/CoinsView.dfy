/**
 Caches stacked over the coin database (CCoinsViewCache in src/coins.cpp, CCoinsViewDB in
 src/txdb.cpp). Every layer shows one flat map and one best block. Reads copy records upwards
 without changing what any layer shows, writes touch the top layer only, and Flush hands the top
 layer's view to the layer below.
 */
module CoinsView {
  import opened Core
  import opened CoinRecord
  import opened Utxo
  import opened Storage

  /** What the layers show, from the top down: each a map, which may still hold records with no
      output left, and a best block. */
  datatype Stack =
    | Bottom(coins: map<Hash, Coins>, best: Hash)
    | Layer(coins: map<Hash, Coins>, best: Hash, below: Stack)

  function Rest(s: Stack): Stack {
    match s
    case Bottom(_, _) => s
    case Layer(_, _, below) => below
  }

  /** The records that still have an output. */
  function Live(coins: map<Hash, Coins>): UtxoSet {
    map id | id in coins && !coins[id].IsPruned() :: coins[id]
  }

  /** What reading some stored records gives. */
  function KeptMap(coins: map<Hash, Coins>): map<Hash, Coins> {
    map id | id in coins :: KeptCoins(coins[id])
  }

  lemma {:induction false} LiveKept(coins: map<Hash, Coins>, mapCoins: map<Hash, Coins>)
    ensures StoredFrom(Live(coins + KeptMap(mapCoins)), Live(coins + mapCoins))
  {
    var u', u := Live(coins + KeptMap(mapCoins)), Live(coins + mapCoins);
    forall id ensures id in u' <==> id in u
              ensures id in u ==> u'[id] == u[id] || u'[id] == KeptCoins(u[id]) {
      if id in mapCoins {
        assert KeptCoins(mapCoins[id]).vout == mapCoins[id].vout;
      }
    }
  }

  lemma {:induction false} LiveStore(coins: map<Hash, Coins>, id: Hash, c: Coins)
    ensures Live(coins[id := c]) == Store(Live(coins), id, c)
  {}

  /** The database at the bottom. */
  class CoinsViewDB {
    var coins: map<Hash, Coins>
    var hashBest: Hash

    constructor ()
      ensures coins == map[] && hashBest == 0
    {
      coins := map[];
      hashBest := 0;
    }

    /** Stores records with an output left and erases the others. A null best block is not written.
        The map holds what reading the records gives. */
    method BatchWrite(mapCoins: map<Hash, Coins>, hashBlock: Hash)
      modifies this
      ensures Live(coins) == Live(old(coins) + KeptMap(mapCoins))
      ensures forall id :: id in coins && id in mapCoins ==> !coins[id].IsPruned()
      ensures hashBest == if hashBlock != 0 then hashBlock else old(hashBest)
    {
      var todo := mapCoins.Keys;
      while todo != {}
        invariant todo <= mapCoins.Keys
        invariant forall id :: id in coins <==> if id in mapCoins && id !in todo then !mapCoins[id].IsPruned() else id in old(coins)
        invariant forall id :: id in coins ==> coins[id] == if id in mapCoins && id !in todo then KeptCoins(mapCoins[id]) else old(coins)[id]
        invariant hashBest == old(hashBest)
      {
        var id :| id in todo;
        if mapCoins[id].IsPruned() {
          coins := coins - {id};
        } else {
          coins := coins[id := KeptCoins(mapCoins[id])];
        }
        todo := todo - {id};
      }
      WrittenLive(old(coins), mapCoins, coins);
      if hashBlock != 0 {
        hashBest := hashBlock;
      }
    }
  }

  /** What the database shows after all records were written. */
  lemma {:induction false} WrittenLive(coins: map<Hash, Coins>, mapCoins: map<Hash, Coins>, coins': map<Hash, Coins>)
    requires forall id :: id in coins' <==> if id in mapCoins then !mapCoins[id].IsPruned() else id in coins
    requires forall id :: id in coins' ==> coins'[id] == if id in mapCoins then KeptCoins(mapCoins[id]) else coins[id]
    ensures Live(coins') == Live(coins + KeptMap(mapCoins))
  {
    assert forall id :: id in mapCoins ==> (KeptCoins(mapCoins[id]).IsPruned() <==> mapCoins[id].IsPruned());
    assert forall id :: id in Live(coins') <==> id in Live(coins + KeptMap(mapCoins));
  }

  /** One cache. Its base is another cache, or the database when `base` is null. */
  class CoinsViewCache {
    const db: CoinsViewDB
    const base: CoinsViewCache?
    var hashBlock: Hash
    var cacheCoins: map<Hash, Coins>

    ghost const Depth: nat
    ghost const Repr: set<object>

    /** The shape of the stack, which never changes. */
    ghost predicate Valid()
      decreases Depth
    {
      && db in Repr
      && this in Repr
      && if base == null then Repr == {this, db}
         else && base.Depth < Depth && base.Repr < Repr && Repr == {this} + base.Repr
              && this !in base.Repr && base.db == db && base.Valid()
    }

    /** What the layers below show. */
    ghost function Below(): Stack
      requires Valid()
      reads Repr - {this}
      decreases Depth, 0
    {
      if base == null then Bottom(db.coins, db.hashBest) else base.Layers()
    }

    /** What this layer and those below show. */
    ghost function Layers(): Stack
      requires Valid()
      reads Repr
      decreases Depth, 1
    {
      Layer(Below().coins + cacheCoins, if hashBlock != 0 then hashBlock else Below().best, Below())
    }

    ghost function View(): map<Hash, Coins>
      requires Valid()
      reads Repr
    {
      Layers().coins
    }

    ghost function Best(): Hash
      requires Valid()
      reads Repr
    {
      Layers().best
    }

    ghost function Utxos(): UtxoSet
      requires Valid()
      reads Repr
    {
      Live(View())
    }

    constructor (db: CoinsViewDB, base: CoinsViewCache?)
      requires base != null ==> base.Valid() && base.db == db
      ensures Valid() && this.db == db && this.base == base
      ensures fresh(this) && Repr == {this} + if base == null then {db} else base.Repr
      ensures hashBlock == 0 && cacheCoins == map[]
      ensures Below() == if base == null then Bottom(db.coins, db.hashBest) else old(base.Layers())
      ensures View() == Below().coins && Best() == Below().best
    {
      this.db := db;
      this.base := base;
      hashBlock := 0;
      cacheCoins := map[];
      Depth := if base == null then 0 else base.Depth + 1;
      Repr := {this} + if base == null then {db} else base.Repr;
    }

    /** Looks a record up, copying it into every cache it passes. */
    method GetCoins(txid: Hash) returns (r: Option<Coins>)
      requires Valid()
      modifies Repr
      ensures Layers() == old(Layers())
      ensures r == if txid in View() then Some(View()[txid]) else None
      ensures r.Some? ==> txid in cacheCoins && cacheCoins[txid] == r.value
      ensures hashBlock == old(hashBlock)
      decreases Depth
    {
      if txid in cacheCoins {
        return Some(cacheCoins[txid]);
      }
      if base == null {
        r := if txid in db.coins then Some(db.coins[txid]) else None;
      } else {
        r := base.GetCoins(txid);
      }
      assert Below() == old(Below()) && cacheCoins == old(cacheCoins);
      if r.Some? {
        cacheCoins := cacheCoins[txid := r.value];
        assert Below().coins + cacheCoins == old(Below().coins + cacheCoins);
      }
    }

    method HaveCoins(txid: Hash) returns (have: bool)
      requires Valid()
      modifies Repr
      ensures Layers() == old(Layers())
      ensures have == (txid in View())
      ensures hashBlock == old(hashBlock)
    {
      var r := GetCoins(txid);
      have := r.Some?;
    }

    method SetCoins(txid: Hash, coins: Coins)
      requires Valid()
      modifies this
      ensures View() == old(View())[txid := coins]
      ensures Best() == old(Best()) && Below() == old(Below())
    {
      cacheCoins := cacheCoins[txid := coins];
    }

    method GetBestBlock() returns (hash: Hash)
      requires Valid()
      modifies Repr
      ensures Layers() == old(Layers())
      ensures hash == Best() == hashBlock
      decreases Depth
    {
      if hashBlock == 0 {
        if base == null {
          hashBlock := db.hashBest;
        } else {
          var h := base.GetBestBlock();
          hashBlock := h;
        }
      }
      hash := hashBlock;
    }

    method SetBestBlock(hash: Hash)
      requires Valid()
      modifies this
      ensures hashBlock == hash && Best() == if hash != 0 then hash else Below().best
      ensures View() == old(View()) && Below() == old(Below())
    {
      hashBlock := hash;
    }

    method BatchWrite(mapCoins: map<Hash, Coins>, hashBlockIn: Hash)
      requires Valid()
      modifies this
      ensures cacheCoins == old(cacheCoins) + mapCoins && hashBlock == hashBlockIn
      ensures View() == old(View()) + mapCoins && Below() == old(Below())
    {
      var todo := mapCoins.Keys;
      while todo != {}
        invariant todo <= mapCoins.Keys
        invariant cacheCoins == old(cacheCoins) + (mapCoins - todo)
      {
        var id :| id in todo;
        cacheCoins := cacheCoins[id := mapCoins[id]];
        todo := todo - {id};
      }
      assert mapCoins - todo == mapCoins;
      hashBlock := hashBlockIn;
    }

    /** Writes records and a best block to the layer below. */
    method BatchWriteBelow(mapCoins: map<Hash, Coins>, hashBlockIn: Hash)
      requires Valid()
      modifies if base == null then {db} else {base as object}
      ensures base == null ==> Live(Below().coins) == Live(old(Below().coins) + KeptMap(mapCoins))
      ensures base != null ==> Below().coins == old(Below().coins) + mapCoins && Rest(Below()) == Rest(old(Below()))
      ensures Below().best == if hashBlockIn != 0 then hashBlockIn
                              else if base == null then old(Below().best) else Rest(old(Below())).best
    {
      if base == null {
        db.BatchWrite(mapCoins, hashBlockIn);
      } else {
        assert base.Valid();
        base.BatchWrite(mapCoins, hashBlockIn);
      }
    }

    /** Makes the base show what this layer showed, and empties the cache; the database shows it up to
        versions that were negative. The best block goes
        along when it was read or set before, and otherwise only if the base itself had not
        stored one that differs from what is below it. */
    method Flush()
      requires Valid()
      modifies this, if base == null then {db} else {base as object}
      ensures cacheCoins == map[] && hashBlock == old(hashBlock)
      ensures Live(Below().coins) == Utxos()
      ensures base != null ==> Utxos() == old(Utxos()) && Below().coins == View() == old(View()) && Rest(Below()) == Rest(old(Below()))
      ensures base == null ==> Utxos() == Live(old(Below().coins) + KeptMap(old(cacheCoins))) && StoredFrom(Utxos(), old(Utxos()))
      ensures old(hashBlock) != 0 ==> Below().best == Best() == old(Best())
      ensures old(hashBlock) == 0 ==> Below().best == if base == null then old(Below().best) else Rest(old(Below())).best
      ensures Below().best == old(Best()) <==>
                || old(hashBlock) != 0
                || base == null
                || old(base.hashBlock) == 0
                || old(base.hashBlock) == old(base.Below().best)
    {
      ghost var coins, mine := Below().coins, cacheCoins;
      BatchWriteBelow(cacheCoins, hashBlock);
      cacheCoins := map[];
      assert View() == Below().coins;
      if base == null {
        LiveKept(coins, mine);
      }
    }
  }

  /** The other side of that condition is reachable: a cache whose best block was neither read nor
      set makes its base lose the best block that was set there. */
  method FlushLosesBestBlock(hash: Hash) returns (before: Hash, after: Hash)
    requires hash != 0
    ensures before == hash && after == 0
  {
    var db := new CoinsViewDB();
    var base := new CoinsViewCache(db, null);
    base.SetBestBlock(hash);
    before := base.GetBestBlock();
    after := FlushUnread(base);
  }

  /** Flushing a new cache leaves its base with the best block of the layer below that. */
  method FlushUnread(base: CoinsViewCache) returns (after: Hash)
    requires base.Valid()
    modifies base.Repr
    ensures after == old(base.Below().best)
  {
    var top := new CoinsViewCache(base.db, base);
    assert Rest(top.Below()) == base.Below();
    top.Flush();
    assert base.Best() == top.Below().best;
    after := base.GetBestBlock();
  }
}
