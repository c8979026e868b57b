/** The coins cache as an object that changes in place, level by level, and stands for a
    value of Coins.View. */
module CoinsCache {
  import opened Coins
  import opened Wrappers

  /** The bottom of every stack: the coins database. */
  class CoinsViewDB {
    var coins: map<OutPoint, Coin>
    var best: Hash

    constructor ()
      ensures coins == map[] && best == NULL_HASH
    {
      coins, best := map[], NULL_HASH;
    }

    /** Entries leave the child's map in whatever order it enumerates them. False is the
        assertion that there is a best block. */
    method BatchWrite(mapCoins: CoinsMap, hashBlock: Hash) returns (ok: bool)
      modifies this
      ensures ok <==> hashBlock != NULL_HASH
      ensures ok ==> coins == MergeDb(old(coins), mapCoins) && best == hashBlock
      ensures !ok ==> unchanged(this)
    {
      if hashBlock == NULL_HASH { return false; }
      var rest := mapCoins.Keys;
      while rest != {}
        invariant rest <= mapCoins.Keys
        invariant forall o :: Find(coins, o) ==
                    if o in rest then Find(old(coins), o) else Find(MergeDb(old(coins), mapCoins), o)
        decreases rest
      {
        var o :| o in rest;
        if mapCoins[o].isDirty {
          if mapCoins[o].coin.IsSpent() {
            coins := coins - {o};
          } else {
            coins := coins[o := mapCoins[o].coin];
          }
        }
        rest := rest - {o};
      }
      SameMap(coins, MergeDb(old(coins), mapCoins));
      best := hashBlock;
      return true;
    }
  }

  lemma SameMap<T>(m: map<OutPoint, T>, n: map<OutPoint, T>)
    requires forall o :: Find(m, o) == Find(n, o)
    ensures m == n
  {
    assert forall o :: o in m ==> Find(m, o) == Find(n, o);
    assert forall o :: o in n ==> Find(m, o) == Find(n, o);
  }

  class CoinsViewCache {
    var cacheCoins: CoinsMap
    var hashBlock: Hash
    /** The cache below, or null when this cache sits on the database itself. */
    const base: CoinsViewCache?
    const db: CoinsViewDB
    ghost const depth: nat
    ghost const Repr: set<object>

    ghost predicate Valid()
      decreases depth
    {
      && Repr == {this} + Below()
      && this !in Below()
      && (base != null ==> base.depth < depth && base.db == db && base.Valid())
    }

    ghost function Below(): set<object> {
      if base == null then {db} else base.Repr
    }

    /** The value this stack stands for. */
    ghost function Model(): View
      requires Valid()
      reads Repr
      decreases depth
    {
      Cache(cacheCoins, hashBlock, BaseModel())
    }

    ghost function BaseModel(): View
      requires Valid()
      reads Below()
      decreases depth, 0
    {
      if base == null then Db(db.coins, db.best) else base.Model()
    }

    constructor OnDb(db: CoinsViewDB)
      ensures Valid() && fresh(this) && this.db == db
      ensures Model() == Cache(map[], NULL_HASH, Db(db.coins, db.best))
    {
      cacheCoins, hashBlock := map[], NULL_HASH;
      base, this.db, depth := null, db, 0;
      Repr := {this, db};
    }

    constructor OnCache(base: CoinsViewCache)
      requires base.Valid()
      ensures Valid() && fresh(this) && this.base == base
      ensures Model() == Cache(map[], NULL_HASH, base.Model())
    {
      cacheCoins, hashBlock := map[], NULL_HASH;
      this.base, db, depth := base, base.db, base.depth + 1;
      Repr := {this} + base.Repr;
    }

    method FetchCoin(o: OutPoint)
      requires Valid()
      modifies Repr
      ensures Model() == Fetch(old(Model()), o)
      decreases depth, 0
    {
      if o in cacheCoins { return; }
      var tmp: Option<Coin>;
      if base != null {
        tmp := base.GetCoin(o);
      } else {
        tmp := if o in db.coins then Some(db.coins[o]) else None;
      }
      if tmp.None? { return; }
      cacheCoins := cacheCoins[o := Entry(tmp.value, false, false)];
      if tmp.value.IsSpent() {
        cacheCoins := cacheCoins[o := Entry(tmp.value, false, true)];
      }
    }

    method GetCoin(o: OutPoint) returns (r: Option<Coin>)
      requires Valid()
      modifies Repr
      ensures Model() == Get(old(Model()), o).0 && r == Get(old(Model()), o).1
      decreases depth, 1
    {
      FetchCoin(o);
      if o in cacheCoins && !cacheCoins[o].coin.IsSpent() {
        return Some(cacheCoins[o].coin);
      }
      return None;
    }

    /** False is the logic_error about overwriting an unspent coin. */
    method AddCoin(o: OutPoint, coin: Coin, possibleOverwrite: bool) returns (ok: bool)
      requires Valid() && !coin.IsSpent()
      modifies this
      ensures ok == Add(old(Model()), o, coin, possibleOverwrite).Some?
      ensures Model() == if ok then Add(old(Model()), o, coin, possibleOverwrite).value else old(Model())
    {
      if coin.out.IsUnspendable() { return true; }
      var inserted := o !in cacheCoins;
      var entry := if inserted then Entry(EmptyCoin(), false, false) else cacheCoins[o];
      var asFresh := false;
      if !possibleOverwrite {
        if !entry.coin.IsSpent() { return false; }
        asFresh := !entry.isDirty;
      }
      cacheCoins := cacheCoins[o := Entry(coin, true, entry.isFresh || asFresh)];
      return true;
    }

    method SpendCoin(o: OutPoint) returns (moveout: Option<Coin>)
      requires Valid()
      modifies Repr
      ensures Model() == Spend(old(Model()), o).0 && moveout == Spend(old(Model()), o).1
    {
      FetchCoin(o);
      if o !in cacheCoins { return None; }
      var entry := cacheCoins[o];
      if entry.isFresh {
        cacheCoins := cacheCoins - {o};
      } else {
        cacheCoins := cacheCoins[o := Entry(entry.coin.Clear(), true, entry.isFresh)];
      }
      return Some(entry.coin);
    }

    method HaveCoin(o: OutPoint) returns (have: bool)
      requires Valid() && Wf(Model())
      modifies Repr
      ensures Model() == Fetch(old(Model()), o) && Wf(Model()) && Same(old(Model()), Model())
      ensures have == Lookup(old(Model()), o).Some?
    {
      FetchIsTransparent(Model(), o);
      FetchCoin(o);
      have := o in cacheCoins && !cacheCoins[o].coin.IsSpent();
    }

    method UncacheCoin(o: OutPoint)
      requires Valid()
      modifies this
      ensures Model() == Uncache(old(Model()), o)
    {
      if o in cacheCoins && !cacheCoins[o].isDirty && !cacheCoins[o].isFresh {
        cacheCoins := cacheCoins - {o};
      }
    }

    /** Entries leave the child's map in whatever order it enumerates them, yet the outcome
        is one and the same. False is the logic_error about a misapplied FRESH flag. */
    method BatchWriteEntries(mapCoins: CoinsMap, hashBlockIn: Hash) returns (ok: bool)
      requires Valid()
      modifies this
      ensures ok == !BatchThrows(old(Model()), mapCoins)
      ensures ok ==> Model() == BatchWrite(old(Model()), mapCoins, hashBlockIn)
    {
      ghost var us := cacheCoins;
      var rest := mapCoins.Keys;
      while rest != {}
        invariant rest <= mapCoins.Keys && hashBlock == old(hashBlock)
        invariant forall o :: Find(cacheCoins, o) == if o in rest then Find(us, o) else Merged(us, mapCoins, o)
        invariant forall o :: o in mapCoins && o !in rest ==> !Misapplied(us, o, mapCoins[o])
        decreases rest
      {
        var o :| o in rest;
        var theirs := mapCoins[o];
        assert Find(cacheCoins, o) == Find(us, o);
        if theirs.isDirty {
          if o !in cacheCoins {
            if !(theirs.isFresh && theirs.coin.IsSpent()) {
              cacheCoins := cacheCoins[o := Entry(theirs.coin, true, theirs.isFresh)];
            }
          } else {
            var ours := cacheCoins[o];
            if theirs.isFresh && !ours.coin.IsSpent() {
              assert Misapplied(us, o, mapCoins[o]);
              return false;
            }
            if ours.isFresh && theirs.coin.IsSpent() {
              cacheCoins := cacheCoins - {o};
            } else {
              cacheCoins := cacheCoins[o := Entry(theirs.coin, true, ours.isFresh)];
            }
          }
        }
        rest := rest - {o};
      }
      forall o ensures Find(cacheCoins, o) == Find(Merge(us, mapCoins), o) {
        assert Find(cacheCoins, o) == Merged(us, mapCoins, o);
      }
      SameMap(cacheCoins, Merge(us, mapCoins));
      hashBlock := hashBlockIn;
      return true;
    }

    /** Under the invariant only a missing best block stops a flush, and only at the database;
        after it the parent shows what this cache showed. */
    method FlushCache() returns (ok: bool)
      requires Valid() && Wf(Model())
      modifies Repr
      ensures ok <==> base != null || hashBlock != NULL_HASH
      ensures ok <==> Flush(old(Model())).Some?
      ensures ok ==> Flush(old(Model())) == Some(Model()) && Wf(Model())
      ensures ok ==> forall o :: Lookup(BaseModel(), o) == Lookup(old(Model()), o)
    {
      ghost var v := Model();
      FlushMovesTheView(v);
      assert v.base == BaseModel() && v.entries == cacheCoins;
      if base != null {
        ok := base.BatchWriteEntries(cacheCoins, hashBlock);
      } else {
        ok := db.BatchWrite(cacheCoins, hashBlock);
      }
      if ok { cacheCoins := map[]; }
    }

    method SetBestBlock(h: Hash)
      requires Valid()
      modifies this
      ensures Model() == Cache(old(cacheCoins), h, old(BaseModel()))
    {
      hashBlock := h;
    }

    method GetBestBlock() returns (h: Hash)
      requires Valid()
      modifies Repr
      ensures h == BestBlock(old(Model())) && Model() == Learn(old(Model()))
      decreases depth
    {
      if hashBlock == NULL_HASH {
        if base != null {
          hashBlock := base.GetBestBlock();
        } else {
          hashBlock := db.best;
        }
      }
      h := hashBlock;
    }

    /** All outputs of a transaction. With the lookup nothing can fail or break the invariant,
        whatever is already in the view; without it the caller must know that the transaction
        is a coinbase or that none of its outputs is unspent yet. */
    method AddCoins(outs: seq<(OutPoint, Coin)>, coinbase: bool, check: bool) returns (ok: bool)
      requires Valid() && Wf(Model())
      requires forall i :: 0 <= i < |outs| ==> !outs[i].1.IsSpent()
      modifies Repr
      ensures check || coinbase || Absent(old(Model()), outs) ==> ok && Wf(Model())
      ensures check || coinbase || Absent(old(Model()), outs) ==>
        forall o :: Lookup(Model(), o) == AfterAdding(Lookup(old(Model()), o), o, outs)
    {
      hide Wf, Lookup;
      var i := 0;
      ghost var allowed := check || coinbase || Absent(Model(), outs);
      while i < |outs|
        invariant 0 <= i <= |outs| && (allowed ==> Wf(Model()))
        invariant allowed ==> forall o :: Lookup(Model(), o) == AfterAdding(Lookup(old(Model()), o), o, outs[..i])
      {
        assert outs[..i + 1][..i] == outs[..i];
        var (o, coin) := outs[i];
        var overwrite := coinbase;
        if check {
          overwrite := HaveCoin(o);
        }
        if allowed {
          if !overwrite { AfterOthers(Lookup(old(Model()), o), outs, i); }
          assert !overwrite ==> Lookup(Model(), o).None?;
          AddAllowed(Model(), o, coin, overwrite);
        }
        ok := AddCoin(o, coin, overwrite);
        if !ok { return; }
        i := i + 1;
      }
      assert outs[..i] == outs;
      return true;
    }
  }

  /** The outputs have different outpoints, and none of them is unspent. */
  ghost predicate Absent(v: View, outs: seq<(OutPoint, Coin)>) {
    && (forall i, j :: 0 <= i < j < |outs| ==> outs[i].0 != outs[j].0)
    && forall i :: 0 <= i < |outs| ==> Lookup(v, outs[i].0).None?
  }

  lemma {:induction false} AfterOthers(before: Option<Coin>, outs: seq<(OutPoint, Coin)>, i: nat)
    requires i < |outs|
    ensures (forall j :: 0 <= j < i ==> outs[j].0 != outs[i].0) ==> AfterAdding(before, outs[i].0, outs[..i]) == before
  {
    var k := i;
    while k > 0
      invariant 0 <= k <= i
      invariant (forall j :: 0 <= j < i ==> outs[j].0 != outs[i].0) ==>
        AfterAdding(before, outs[i].0, outs[..i]) == AfterAdding(before, outs[i].0, outs[..k])
    {
      assert outs[..k][..k - 1] == outs[..k - 1];
      k := k - 1;
    }
  }

  lemma AddAllowed(v: View, o: OutPoint, coin: Coin, overwrite: bool)
    requires Wf(v) && v.Cache? && !coin.IsSpent() && (overwrite || Lookup(v, o).None?)
    ensures var w := Add(v, o, coin, overwrite);
            && w.Some? && Wf(w.value)
            && forall x :: Lookup(w.value, x) == if x == o && !coin.out.IsUnspendable() then Some(coin) else Lookup(v, x)
  {
    AddIsUpdate(v, o, coin, overwrite);
  }

  /** What is visible at an outpoint after the given outputs were added in order. */
  function AfterAdding(before: Option<Coin>, o: OutPoint, outs: seq<(OutPoint, Coin)>): Option<Coin> {
    if outs == [] then before
    else
      var (p, coin) := outs[|outs| - 1];
      if p == o && !coin.out.IsUnspendable() then Some(coin) else AfterAdding(before, o, outs[..|outs| - 1])
  }
}
