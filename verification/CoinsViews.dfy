/**
  The coin views as objects linked by their base references.

  A view without a base is the database; any other view is a cache. Each method is proved
  to take Model(), the stack of views as a value, to what CoinsSpec says.
*/
module CoinsViews {
  import opened Wrappers
  import opened CoinsSpec

  /** The part of a batch under the keys already visited. */
  ghost function Visited(them: CoinsMap, order: seq<CoinsKey>): CoinsMap {
    map k | k in them && k in order :: them[k]
  }

  /** Written in any order, entries flagged as their keys say leave one ledger. */
  lemma OrderDoesNotMatter(l: Ledger, them: CoinsMap, order: seq<CoinsKey>)
    requires Flagged(them) && Lists(order, them.Keys)
    ensures WriteEach(l, them, order) == WriteLedger(l, them)
  {
    WrittenSoFar(l, them, order);
    assert Visited(them, order) == them;
  }

  lemma {:induction false} WrittenSoFar(l: Ledger, them: CoinsMap, order: seq<CoinsKey>)
    requires Flagged(them) && forall k | k in order :: k in them
    ensures WriteEach(l, them, order) == WriteLedger(l, Visited(them, order))
    decreases |order|
  {
    var w := WriteLedger(l, Visited(them, order));
    if order == [] {
      assert w.coins == l.coins && w.pegins == l.pegins;
    } else {
      var last := |order| - 1;
      WrittenSoFar(l, them, order[..last]);
      assert order == order[..last] + [order[last]];
      WriteOne(l, Visited(them, order[..last]), order[last], them[order[last]]);
      assert Visited(them, order) == Visited(them, order[..last])[order[last] := them[order[last]]];
    }
  }

  lemma WriteOne(l: Ledger, them: CoinsMap, key: CoinsKey, entry: Entry)
    requires Flagged(them) && entry.isPegin == !key.IsNative()
    requires key in them ==> them[key] == entry
    ensures WriteEntry(WriteLedger(l, them), key, entry) == WriteLedger(l, them[key := entry])
  {
    var a, b := WriteEntry(WriteLedger(l, them), key, entry), WriteLedger(l, them[key := entry]);
    forall o
      ensures o in a.coins <==> o in b.coins
      ensures o in a.coins ==> a.coins[o] == b.coins[o]
    {
      WriteOneCoin(l, them, key, entry, o);
    }
    assert a.coins == b.coins;
    assert a.pegins == b.pegins;
  }

  lemma WriteOneCoin(l: Ledger, them: CoinsMap, key: CoinsKey, entry: Entry, o: OutPoint)
    requires Flagged(them) && entry.isPegin == !key.IsNative()
    requires key in them ==> them[key] == entry
    ensures var a, b := WriteEntry(WriteLedger(l, them), key, entry), WriteLedger(l, them[key := entry]);
      && (o in a.coins <==> o in b.coins)
      && (o in a.coins ==> a.coins[o] == b.coins[o])
  {
    hide WriteLedger;
    CoinWritten(l, them, o);
    CoinWritten(l, them[key := entry], o);
    assert key.IsNative() && key.outpoint == o <==> key == NativeKey(o);
  }

  /** The coin records of a written ledger. */
  lemma CoinWritten(l: Ledger, them: CoinsMap, o: OutPoint)
    ensures o in WriteLedger(l, them).coins <==> LedgerCoin(l, them, o).Some?
    ensures o in WriteLedger(l, them).coins ==> WriteLedger(l, them).coins[o] == LedgerCoin(l, them, o).value
  {
    if NativeKey(o) in them { assert NativeKey(o).outpoint == o; }
  }

  class CoinsView {
    const base: CoinsView?
    ghost const Repr: set<CoinsView>
    /** The contents of the database; unused in a cache. */
    var ledger: Ledger
    /** The cached entries; unused in the database. */
    var cacheCoins: CoinsMap

    ghost predicate Valid()
      decreases Repr
    {
      && this in Repr
      && (base != null ==> base.Repr == Repr - {this} && base.Valid())
    }

    ghost function Model(): View
      requires Valid()
      reads Repr
      decreases Repr
    {
      if base == null then View.Database(ledger) else View.Cache(base.Model(), cacheCoins)
    }

    constructor Database(l: Ledger)
      ensures Valid() && fresh(Repr) && base == null && Model() == View.Database(l)
    {
      base := null;
      Repr := {this};
      ledger := l;
      cacheCoins := map[];
    }

    /** A new cache over a view, empty. */
    constructor Cache(below: CoinsView)
      requires below.Valid()
      ensures Valid() && Repr == below.Repr + {this} && fresh(this) && base == below
      ensures Model() == View.Cache(below.Model(), map[])
    {
      base := below;
      Repr := below.Repr + {this};
      ledger := Ledger(map[], {});
      cacheCoins := map[];
    }

    method GetCoin(o: OutPoint) returns (r: Option<Coin>)
      requires Valid()
      modifies Repr
      ensures (Model(), r) == CoinsSpec.GetCoin(old(Model()), o)
      decreases Repr, 1
    {
      if base == null {
        return if o in ledger.coins then Some(ledger.coins[o]) else None;
      }
      var found := FetchCoin(o);
      if found && !cacheCoins[NativeKey(o)].coin.IsSpent() {
        return Some(cacheCoins[NativeKey(o)].coin);
      }
      return None;
    }

    /** Returns whether the cache has an entry afterwards. */
    method FetchCoin(o: OutPoint) returns (found: bool)
      requires Valid() && base != null
      modifies Repr
      ensures Model() == CoinsSpec.FetchCoin(old(Model()), o)
      ensures found == (NativeKey(o) in cacheCoins)
      decreases Repr, 0
    {
      if NativeKey(o) in cacheCoins {
        return true;
      }
      var below := base.GetCoin(o);
      if below.None? {
        return false;
      }
      cacheCoins := cacheCoins[NativeKey(o) := Entry(below.value, false, false, below.value.IsSpent(), false)];
      return true;
    }

    method AddCoin(o: OutPoint, coin: Coin, possibleOverwrite: bool) returns (thrown: bool)
      requires Valid() && base != null
      requires !coin.IsSpent()
      modifies this
      ensures var r := CoinsSpec.AddCoin(old(Model()), o, coin, possibleOverwrite);
        && thrown == r.LogicError?
        && Model() == if thrown then old(Model()) else r.value
    {
      if coin.out.IsUnspendable() { return false; }
      var key := NativeKey(o);
      var inserted := key !in cacheCoins;
      var entry := if inserted then Entry(CLEARED, false, false, false, false) else cacheCoins[key];
      var markFresh := false;
      if !possibleOverwrite {
        if !entry.coin.IsSpent() { return true; }
        markFresh := !entry.isDirty;
      }
      cacheCoins := cacheCoins[key := entry.(coin := coin, isDirty := true, isFresh := entry.isFresh || markFresh)];
      return false;
    }

    method SpendCoin(o: OutPoint) returns (moved: Option<Coin>)
      requires Valid() && base != null
      modifies Repr
      ensures (Model(), moved) == CoinsSpec.SpendCoin(old(Model()), o)
    {
      var found := FetchCoin(o);
      if !found { return None; }
      var key := NativeKey(o);
      var entry := cacheCoins[key];
      if entry.isFresh {
        cacheCoins := cacheCoins - {key};
      } else {
        cacheCoins := cacheCoins[key := entry.(isDirty := true, coin := CLEARED)];
      }
      return Some(entry.coin);
    }

    method IsPeginSpent(key: CoinsKey) returns (spent: bool)
      requires Valid()
      requires key.chain != 0 && key.outpoint.hash != 0
      modifies Repr
      ensures (Model(), spent) == CoinsSpec.IsPeginSpent(old(Model()), key)
      decreases Repr
    {
      if base == null { return key in ledger.pegins; }
      if key !in cacheCoins {
        spent := base.IsPeginSpent(key);
        cacheCoins := cacheCoins[key := Entry(CLEARED, spent, false, !spent, true)];
      }
      return cacheCoins[key].peginSpent;
    }

    method SetPeginSpent(key: CoinsKey, spent: bool)
      requires Valid() && base != null
      requires key.chain != 0 && key.outpoint.hash != 0
      modifies Repr
      ensures Model() == CoinsSpec.SetPeginSpent(old(Model()), key, spent)
    {
      var hadSpent;
      var missing := key !in cacheCoins;
      if missing {
        hadSpent := base.IsPeginSpent(key);
      } else {
        hadSpent := cacheCoins[key].peginSpent;
      }
      if hadSpent == spent { return; }
      var entry := if missing then Entry(CLEARED, false, false, !hadSpent, false) else cacheCoins[key];
      cacheCoins := cacheCoins[key := entry.(peginSpent := spent, isPegin := true, isDirty := true)];
    }

    method Uncache(o: OutPoint)
      requires Valid() && base != null
      modifies this
      ensures Model() == CoinsSpec.Uncache(old(Model()), o)
    {
      var key := NativeKey(o);
      if key in cacheCoins && !cacheCoins[key].isDirty && !cacheCoins[key].isFresh && !cacheCoins[key].isPegin {
        cacheCoins := cacheCoins - {key};
      }
    }

    /**
      Takes the entries of a child in any order. When it throws, some of them have been
      merged; the caller's state is then unspecified. The order shows only in the database,
      and only when two entries of one coin are not flagged as their keys say.
    */
    method BatchWrite(mapCoins: CoinsMap) returns (thrown: bool, ghost order: seq<CoinsKey>)
      requires Valid()
      modifies this
      ensures thrown == CoinsSpec.BatchWrite(old(Model()), mapCoins).LogicError?
      ensures !thrown && (base != null || Flagged(mapCoins)) ==>
        Model() == CoinsSpec.BatchWrite(old(Model()), mapCoins).value
      ensures base == null ==>
        Lists(order, mapCoins.Keys) && Model() == View.Database(WriteEach(old(ledger), mapCoins, order))
    {
      order := [];
      if base == null {
        order := WriteDatabase(mapCoins);
        return false, order;
      }
      var todo := mapCoins.Keys;
      ghost var us := cacheCoins;
      while todo != {}
        invariant todo <= mapCoins.Keys
        invariant forall k | k in mapCoins.Keys - todo :: !Misapplied(us, mapCoins, k)
        invariant forall k :: k in cacheCoins <==>
          if k in todo then k in us else MergeAt(us, mapCoins, k).Some?
        invariant forall k | k in cacheCoins ::
          cacheCoins[k] == if k in todo then us[k] else MergeAt(us, mapCoins, k).value
        modifies this`cacheCoins
        decreases todo
      {
        var key :| key in todo;
        todo := todo - {key};
        var child := mapCoins[key];
        if child.isDirty {
          if key !in cacheCoins {
            if !(child.isFresh && child.Absent()) {
              cacheCoins := cacheCoins[key :=
                if child.isPegin then Entry(CLEARED, child.peginSpent, true, child.isFresh, true)
                else Entry(child.coin, false, true, child.isFresh, false)];
            }
          } else {
            var ours := cacheCoins[key];
            if child.isFresh && !ours.coin.IsSpent() {
              assert Misapplied(us, mapCoins, key);
              return true, order;
            }
            if ours.isFresh && child.Absent() {
              cacheCoins := cacheCoins - {key};
            } else if child.isPegin {
              cacheCoins := cacheCoins[key := ours.(peginSpent := child.peginSpent, isDirty := true)];
            } else {
              cacheCoins := cacheCoins[key := ours.(coin := child.coin, isDirty := true)];
            }
          }
        }
      }
      assert cacheCoins == Merge(us, mapCoins);
      return false, order;
    }

    /** The batch written to the database, one entry at a time. */
    method WriteDatabase(mapCoins: CoinsMap) returns (ghost order: seq<CoinsKey>)
      requires Valid() && base == null
      modifies this
      ensures Lists(order, mapCoins.Keys)
      ensures Model() == View.Database(WriteEach(old(ledger), mapCoins, order))
      ensures Flagged(mapCoins) ==> Model() == View.Database(WriteLedger(old(ledger), mapCoins))
    {
      var todo := mapCoins.Keys;
      ghost var before := ledger;
      order := [];
      while todo != {}
        invariant todo <= mapCoins.Keys
        invariant Lists(order, mapCoins.Keys - todo)
        invariant ledger == WriteEach(before, mapCoins, order)
        modifies this`ledger
        decreases todo
      {
        var key :| key in todo;
        order := order + [key];
        todo := todo - {key};
        var entry := mapCoins[key];
        if entry.isDirty {
          if entry.isPegin {
            ledger := ledger.(pegins := if entry.peginSpent then ledger.pegins + {key} else ledger.pegins - {key});
          } else if entry.coin.IsSpent() {
            ledger := ledger.(coins := ledger.coins - {key.outpoint});
          } else {
            ledger := ledger.(coins := ledger.coins[key.outpoint := entry.coin]);
          }
        }
      }
      if Flagged(mapCoins) {
        OrderDoesNotMatter(before, mapCoins, order);
      }
    }

    method Flush() returns (thrown: bool, ghost order: seq<CoinsKey>)
      requires Valid() && base != null
      modifies Repr
      ensures thrown == CoinsSpec.Flush(old(Model())).LogicError?
      ensures !thrown && (base.base != null || Flagged(old(cacheCoins))) ==>
        Model() == CoinsSpec.Flush(old(Model())).value
      ensures base.base == null ==>
        && Lists(order, old(cacheCoins).Keys)
        && Model() == View.Cache(View.Database(WriteEach(old(base.ledger), old(cacheCoins), order)), map[])
    {
      thrown, order := base.BatchWrite(cacheCoins);
      cacheCoins := map[];
    }
  }
}
