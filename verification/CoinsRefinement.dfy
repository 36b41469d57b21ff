/**
  A stack of coin caches refines one plain ledger per layer.

  Shows gives the ledger a view presents, whatever is cached where. Inv is what every
  operation keeps: an entry that is not DIRTY agrees with the layer below, and a FRESH
  entry has nothing unspent below it. StackRefinesLedgers is the main theorem.
*/
module CoinsRefinement {
  import opened Wrappers
  import opened CoinsSpec

  /** The ledger below, overridden by the cached entries. */
  ghost function Overlay(l: Ledger, entries: CoinsMap): Ledger {
    Ledger(
      map o | o in l.coins.Keys + (set k | k in entries :: k.outpoint) && OverlayCoin(l, entries, o) != CLEARED
        :: OverlayCoin(l, entries, o),
      set k | k in l.pegins + entries.Keys && OverlayPegin(l, entries, k))
  }

  ghost function OverlayCoin(l: Ledger, entries: CoinsMap, o: OutPoint): Coin {
    if NativeKey(o) in entries then entries[NativeKey(o)].coin else l.CoinAt(o)
  }

  ghost predicate OverlayPegin(l: Ledger, entries: CoinsMap, k: CoinsKey) {
    !k.IsNative() && if k in entries then entries[k].peginSpent else k in l.pegins
  }

  ghost function Shows(v: View): Ledger {
    match v
    case Database(l) => l
    case Cache(base, entries) => Overlay(Shows(base), entries)
  }

  /** What each layer shows, the top first and the database last. */
  ghost function Layers(v: View): (ls: seq<Ledger>)
    ensures |ls| >= 1 && ls[0] == Shows(v)
  {
    [Shows(v)] + match v case Database(_) => [] case Cache(base, _) => Layers(base)
  }

  /** The five combinations that the documentation of an entry allows for a native coin. */
  ghost predicate DocumentedState(e: Entry) {
    || (!e.coin.IsSpent() && e.isFresh && e.isDirty)
    || (!e.coin.IsSpent() && !e.isFresh && e.isDirty)
    || (!e.coin.IsSpent() && !e.isFresh && !e.isDirty)
    || (e.coin.IsSpent() && e.isFresh && !e.isDirty)
    || (e.coin.IsSpent() && !e.isFresh && e.isDirty)
  }

  /** An entry against the ledger that the layer below shows. */
  ghost predicate EntryOk(l: Ledger, k: CoinsKey, e: Entry) {
    if k.IsNative() then
      && !e.isPegin
      && DocumentedState(e)
      && (e.isFresh ==> e.isDirty)
      && (e.coin.IsSpent() ==> e.coin == CLEARED)
      && (!e.isDirty ==> e.coin == l.CoinAt(k.outpoint))
      && (e.isFresh ==> k.outpoint !in l.coins)
    else
      && e.isPegin
      && e.coin == CLEARED
      && (!e.isDirty ==> e.peginSpent == (k in l.pegins))
      && (e.isFresh <==> k !in l.pegins)
  }

  ghost predicate EntriesOk(l: Ledger, entries: CoinsMap) {
    forall k | k in entries :: EntryOk(l, k, entries[k])
  }

  ghost predicate Inv(v: View) {
    match v
    case Database(l) => l.WellFormed()
    case Cache(base, entries) => Inv(base) && EntriesOk(Shows(base), entries)
  }

  lemma OverlayAt(l: Ledger, entries: CoinsMap)
    requires l.WellFormed()
    requires EntriesOk(l, entries)
    ensures Overlay(l, entries).WellFormed()
    ensures forall o :: Overlay(l, entries).CoinAt(o) == OverlayCoin(l, entries, o)
    ensures forall k :: k in Overlay(l, entries).pegins <==> OverlayPegin(l, entries, k)
  {
    var r := Overlay(l, entries);
    forall o
      ensures r.CoinAt(o) == OverlayCoin(l, entries, o)
      ensures o in r.coins ==> !r.coins[o].IsSpent()
    {
      if NativeKey(o) in entries {
        assert EntryOk(l, NativeKey(o), entries[NativeKey(o)]);
        assert NativeKey(o).outpoint == o;
      }
    }
  }

  /** Well-formed ledgers that agree at every key are equal. */
  lemma LedgersEqual(a: Ledger, b: Ledger)
    requires a.WellFormed() && b.WellFormed()
    requires forall o :: a.CoinAt(o) == b.CoinAt(o)
    requires forall k :: k in a.pegins <==> k in b.pegins
    ensures a == b
  {
    forall o
      ensures o in a.coins <==> o in b.coins
      ensures o in a.coins ==> a.coins[o] == b.coins[o]
    {
      assert a.CoinAt(o) == b.CoinAt(o);
    }
    assert a.coins == b.coins;
    assert a.pegins == b.pegins;
  }

  lemma {:induction false} ShowsWellFormed(v: View)
    requires Inv(v)
    ensures Shows(v).WellFormed()
  {
    if v.Cache? {
      ShowsWellFormed(v.base);
      OverlayAt(Shows(v.base), v.entries);
    }
  }

  /** Under the invariant every entry is flagged as its key says. */
  lemma EntriesFlagged(v: View)
    requires v.Cache? && Inv(v)
    ensures Flagged(v.entries)
  {
    forall k | k in v.entries ensures v.entries[k].isPegin == !k.IsNative() {
      assert EntryOk(Shows(v.base), k, v.entries[k]);
    }
  }

  /** The documented spent, FRESH, not DIRTY state does not occur for a native coin. */
  lemma NativeFreshIsDirty(v: View, k: CoinsKey)
    requires v.Cache? && Inv(v) && k.IsNative() && k in v.entries && v.entries[k].isFresh
    ensures v.entries[k].isDirty && DocumentedState(v.entries[k])
  {
    assert EntryOk(Shows(v.base), k, v.entries[k]);
  }

  /** It does for a pegin: asking about one that is not spent caches a spent coin, FRESH and not DIRTY. */
  lemma PeginFreshNotDirty(k: CoinsKey)
    requires !k.IsNative()
    ensures var (v, spent) := IsPeginSpent(Cache(Database(Ledger(map[], {})), map[]), k);
      && !spent && Inv(v)
      && k in v.entries && v.entries[k].coin.IsSpent() && v.entries[k].isFresh && !v.entries[k].isDirty
  {
    IsPeginSpentCorrect(Cache(Database(Ledger(map[], {})), map[]), k);
  }

  /** Two sets of entries over one ledger show the same when they agree key by key. */
  lemma OverlaysEqual(l: Ledger, a: CoinsMap, b: CoinsMap)
    requires l.WellFormed() && EntriesOk(l, a) && EntriesOk(l, b)
    requires forall o :: OverlayCoin(l, a, o) == OverlayCoin(l, b, o)
    requires forall k :: OverlayPegin(l, a, k) <==> OverlayPegin(l, b, k)
    ensures Overlay(l, a) == Overlay(l, b)
  {
    OverlayAt(l, a);
    OverlayAt(l, b);
    LedgersEqual(Overlay(l, a), Overlay(l, b));
  }

  // ----- Operations that change no layer -----

  /** FetchCoin and GetCoin fill caches at every level and change what no layer shows. */
  lemma {:induction false} GetCoinCorrect(v: View, o: OutPoint)
    requires Inv(v)
    ensures var (v', r) := GetCoin(v, o);
      && Inv(v') && Layers(v') == Layers(v) && v'.Cache? == v.Cache?
      && r == if o in Shows(v).coins then Some(Shows(v).coins[o]) else None
    decreases v, 1
  {
    if v.Cache? {
      FetchCoinCorrect(v, o);
      ShowsWellFormed(v.base);
      var fetched := FetchCoin(v, o);
      OverlayAt(Shows(fetched.base), fetched.entries);
      assert Shows(v).CoinAt(o) == OverlayCoin(Shows(fetched.base), fetched.entries, o);
    }
  }

  lemma {:induction false} FetchCoinCorrect(v: View, o: OutPoint)
    requires v.Cache? && Inv(v)
    ensures var v' := FetchCoin(v, o);
      && Inv(v') && Layers(v') == Layers(v)
      && Shows(v'.base) == Shows(v.base)
      && (NativeKey(o) !in v'.entries ==> o !in Shows(v).coins)
      && (NativeKey(o) in v'.entries ==> Shows(v).CoinAt(o) == v'.entries[NativeKey(o)].coin)
    decreases v, 0
  {
    ShowsWellFormed(v.base);
    OverlayAt(Shows(v.base), v.entries);
    if NativeKey(o) !in v.entries {
      GetCoinCorrect(v.base, o);
      var v' := FetchCoin(v, o);
      assert Shows(v'.base) == Layers(v'.base)[0];
      OverlaysEqual(Shows(v.base), v.entries, v'.entries);
      assert Shows(v).CoinAt(o) == OverlayCoin(Shows(v.base), v.entries, o);
    } else {
      assert Shows(v).CoinAt(o) == OverlayCoin(Shows(v.base), v.entries, o);
    }
  }

  lemma {:induction false} IsPeginSpentCorrect(v: View, key: CoinsKey)
    requires Inv(v) && !key.IsNative()
    ensures var (v', r) := IsPeginSpent(v, key);
      && Inv(v') && Layers(v') == Layers(v) && v'.Cache? == v.Cache?
      && r == (key in Shows(v).pegins)
  {
    if v.Cache? {
      ShowsWellFormed(v.base);
      OverlayAt(Shows(v.base), v.entries);
      IsPeginSpentCorrect(v.base, key);
      if key !in v.entries {
        var (v', r) := IsPeginSpent(v, key);
        assert Shows(v'.base) == Layers(v'.base)[0];
        OverlaysEqual(Shows(v.base), v.entries, v'.entries);
      }
    }
  }

  /** Asking again gives the same answer and touches nothing: a coin found stays in the cache. */
  lemma {:induction false} GetCoinAgain(v: View, o: OutPoint)
    ensures var (v', r) := GetCoin(v, o);
      && GetCoin(v', o) == (v', r)
      && (v.Cache? && r.Some? ==> v'.Cache? && NativeKey(o) in v'.entries && v'.entries[NativeKey(o)].coin == r.value)
    decreases v
  {
    if v.Cache? { GetCoinAgain(v.base, o); }
  }

  /** Only an unmodified entry is dropped, and it is, whatever it holds. */
  lemma UncacheCorrect(v: View, o: OutPoint)
    requires v.Cache? && Inv(v)
    ensures Inv(Uncache(v, o)) && Layers(Uncache(v, o)) == Layers(v)
    ensures Uncache(v, o) ==
      if NativeKey(o) in v.entries && v.entries[NativeKey(o)].isDirty then v
      else Cache(v.base, v.entries - {NativeKey(o)})
  {
    if NativeKey(o) in v.entries {
      assert EntryOk(Shows(v.base), NativeKey(o), v.entries[NativeKey(o)]);
    } else {
      assert v.entries - {NativeKey(o)} == v.entries;
    }
    ShowsWellFormed(v.base);
    OverlaysEqual(Shows(v.base), v.entries, Uncache(v, o).entries);
  }

  // ----- Operations that change the top layer -----

  /** Not empty, not longer than 10000 bytes, and not beginning with OP_RETURN. */
  ghost predicate Spendable(script: seq<Byte>) {
    0 < |script| <= 10000 && script[0] != 0x6a
  }

  ghost function PutCoin(l: Ledger, o: OutPoint, coin: Coin): Ledger {
    if Spendable(coin.out.script) then l.(coins := l.coins[o := coin]) else l
  }

  ghost function RemoveCoin(l: Ledger, o: OutPoint): Ledger {
    l.(coins := l.coins - {o})
  }

  ghost function PutPegin(l: Ledger, key: CoinsKey, spent: bool): Ledger {
    l.(pegins := if spent then l.pegins + {key} else l.pegins - {key})
  }

  /** The discipline AddCoin asks of its caller. */
  ghost predicate MayAdd(l: Ledger, o: OutPoint, coin: Coin, possibleOverwrite: bool) {
    possibleOverwrite || !Spendable(coin.out.script) || o !in l.coins
  }

  lemma AddCoinCorrect(v: View, o: OutPoint, coin: Coin, possibleOverwrite: bool)
    requires v.Cache? && Inv(v) && !coin.IsSpent()
    requires MayAdd(Shows(v), o, coin, possibleOverwrite)
    ensures var r := AddCoin(v, o, coin, possibleOverwrite);
      && r.Done? && r.value.Cache? && r.value.base == v.base && Inv(r.value)
      && Shows(r.value) == PutCoin(Shows(v), o, coin)
  {
    var l := Shows(v.base);
    ShowsWellFormed(v.base);
    OverlayAt(l, v.entries);
    if !coin.out.IsUnspendable() {
      assert Shows(v).CoinAt(o) == OverlayCoin(l, v.entries, o);
      var r := AddCoin(v, o, coin, possibleOverwrite);
      OverlayAt(l, r.value.entries);
      LedgersEqual(Shows(r.value), PutCoin(Shows(v), o, coin)) by {
        assert forall x :: PutCoin(Shows(v), o, coin).CoinAt(x) == if x == o then coin else Shows(v).CoinAt(x);
      }
    }
  }

  /**
    The discipline is exact: AddCoin returns with the invariant intact if and only if it
    was respected. Otherwise it either throws or marks FRESH a coin that exists below.
  */
  lemma AddCoinExactly(v: View, o: OutPoint, coin: Coin, possibleOverwrite: bool)
    requires v.Cache? && Inv(v) && !coin.IsSpent()
    ensures var r := AddCoin(v, o, coin, possibleOverwrite);
      r.Done? && Inv(r.value) <==> MayAdd(Shows(v), o, coin, possibleOverwrite)
  {
    if MayAdd(Shows(v), o, coin, possibleOverwrite) {
      AddCoinCorrect(v, o, coin, possibleOverwrite);
    } else {
      var key := NativeKey(o);
      ShowsWellFormed(v.base);
      OverlayAt(Shows(v.base), v.entries);
      assert Shows(v).CoinAt(o) == OverlayCoin(Shows(v.base), v.entries, o);
      if key !in v.entries {
        var r := AddCoin(v, o, coin, possibleOverwrite).value;
        assert !EntryOk(Shows(v.base), key, r.entries[key]);
      }
    }
  }

  /**
    What a caller sees of it: where AddCoin returns and the coin is spendable, spending it
    takes the coin away if and only if the discipline was respected.
  */
  lemma AddedCoinCanBeSpent(v: View, o: OutPoint, coin: Coin, possibleOverwrite: bool)
    requires v.Cache? && Inv(v) && !coin.IsSpent() && AddCoin(v, o, coin, possibleOverwrite).Done?
    ensures var r := AddCoin(v, o, coin, possibleOverwrite).value;
      MayAdd(Shows(v), o, coin, possibleOverwrite) <==> o !in Shows(SpendCoin(r, o).0).coins
  {
    var r := AddCoin(v, o, coin, possibleOverwrite).value;
    if MayAdd(Shows(v), o, coin, possibleOverwrite) {
      AddCoinCorrect(v, o, coin, possibleOverwrite);
      SpendCoinCorrect(r, o);
    } else {
      MisappliedAddUndone(v, o, coin, possibleOverwrite);
    }
  }

  lemma MisappliedAddUndone(v: View, o: OutPoint, coin: Coin, possibleOverwrite: bool)
    requires v.Cache? && Inv(v) && !coin.IsSpent() && AddCoin(v, o, coin, possibleOverwrite).Done?
    requires !MayAdd(Shows(v), o, coin, possibleOverwrite)
    ensures SpendCoin(AddCoin(v, o, coin, possibleOverwrite).value, o).0 == v
  {
    hide Overlay;
    ShowsWellFormed(v.base);
    OverlayAt(Shows(v.base), v.entries);
    assert Shows(v).CoinAt(o) == OverlayCoin(Shows(v.base), v.entries, o);
    assert NativeKey(o) !in v.entries;
    var r := AddCoin(v, o, coin, possibleOverwrite).value;
    assert r.entries == v.entries[NativeKey(o) := Entry(coin, false, true, true, false)];
    assert SpendCoin(r, o).0.entries == v.entries;
  }

  /** Breaking the discipline loses a spend: the coin below comes back. */
  lemma FreshMisappliedResurrects(o: OutPoint, below: Coin, added: Coin)
    requires !below.IsSpent() && Spendable(added.out.script)
    ensures var v := Cache(Database(Ledger(map[o := below], {})), map[]);
      && Inv(v)
      && var r := AddCoin(v, o, added, false);
      r.Done? && o in Shows(SpendCoin(r.value, o).0).coins
  {
    var v := Cache(Database(Ledger(map[o := below], {})), map[]);
    var r := AddCoin(v, o, added, false).value;
    var spent := SpendCoin(r, o).0;
    assert spent.entries == map[];
    assert Shows(spent).coins == map[o := below];
  }

  lemma SpendCoinCorrect(v: View, o: OutPoint)
    requires v.Cache? && Inv(v)
    ensures var (v', moved) := SpendCoin(v, o);
      && v'.Cache? && Inv(v') && Layers(v'.base) == Layers(v.base)
      && Shows(v') == RemoveCoin(Shows(v), o)
      && (o in Shows(v).coins ==> moved == Some(Shows(v).coins[o]))
      && (o !in Shows(v).coins ==> moved.None? || moved == Some(CLEARED))
      && (moved.Some? <==> NativeKey(o) in v.entries || o in Shows(v).coins)
  {
    FetchCoinCorrect(v, o);
    GetCoinCorrect(v.base, o);
    ShowsWellFormed(v.base);
    OverlayAt(Shows(v.base), v.entries);
    assert Shows(v).CoinAt(o) == OverlayCoin(Shows(v.base), v.entries, o);
    var f := FetchCoin(v, o);
    LayersOfCaches(v, f);
    SpendFetched(f, Shows(v), o);
  }

  /** Spending a coin of the database twice: the second time there is no coin, and it still reports success. */
  lemma SpentTwice(o: OutPoint, c: Coin)
    requires !c.IsSpent()
    ensures var v := Cache(Database(Ledger(map[o := c], {})), map[]);
      var (once, first) := SpendCoin(v, o);
      && Inv(v) && first == Some(c) && o !in Shows(once).coins
      && SpendCoin(once, o).1 == Some(CLEARED)
  {
    var v := Cache(Database(Ledger(map[o := c], {})), map[]);
    SpendCoinCorrect(v, o);
    assert SpendCoin(v, o).0.entries == map[NativeKey(o) := Entry(CLEARED, false, true, false, false)];
  }

  lemma SpendFetched(f: View, shown: Ledger, o: OutPoint)
    requires f.Cache? && Inv(f) && Layers(f)[0] == shown
    requires NativeKey(o) !in f.entries ==> o !in shown.coins
    ensures var v' := if NativeKey(o) in f.entries then Cache(f.base, SpendEntry(f.entries, NativeKey(o))) else f;
      Inv(v') && Shows(v') == RemoveCoin(shown, o)
    ensures NativeKey(o) in f.entries ==> f.entries[NativeKey(o)].coin == shown.CoinAt(o)
  {
    ShowsWellFormed(f.base);
    if NativeKey(o) in f.entries {
      SpendEntryCorrect(Shows(f.base), f.entries, o);
    } else {
      assert shown.coins - {o} == shown.coins;
    }
  }

  /** Erasing a FRESH entry and clearing any other both remove the coin. */
  lemma SpendEntryCorrect(l: Ledger, entries: CoinsMap, o: OutPoint)
    requires l.WellFormed() && EntriesOk(l, entries) && NativeKey(o) in entries
    ensures EntriesOk(l, SpendEntry(entries, NativeKey(o)))
    ensures Overlay(l, SpendEntry(entries, NativeKey(o))) == RemoveCoin(Overlay(l, entries), o)
    ensures entries[NativeKey(o)].coin == Overlay(l, entries).CoinAt(o)
  {
    hide EntriesOk, Overlay;
    var after := SpendEntry(entries, NativeKey(o));
    SpendEntryKeeps(l, entries, o);
    OverlayAt(l, entries);
    OverlayAt(l, after);
    var expected := RemoveCoin(Overlay(l, entries), o);
    assert forall x :: expected.CoinAt(x) == if x == o then CLEARED else OverlayCoin(l, entries, x);
    LedgersEqual(Overlay(l, after), expected);
  }

  lemma SpendEntryKeeps(l: Ledger, entries: CoinsMap, o: OutPoint)
    requires l.WellFormed() && EntriesOk(l, entries) && NativeKey(o) in entries
    ensures EntriesOk(l, SpendEntry(entries, NativeKey(o)))
    ensures OverlayCoin(l, SpendEntry(entries, NativeKey(o)), o) == CLEARED
  {
    assert EntryOk(l, NativeKey(o), entries[NativeKey(o)]);
  }

  /** Equal layers of two caches are equal below them too. */
  lemma LayersOfCaches(a: View, b: View)
    requires a.Cache? && b.Cache? && Layers(a) == Layers(b)
    ensures Layers(a.base) == Layers(b.base)
  {
    assert Layers(a)[1..] == Layers(a.base);
    assert Layers(b)[1..] == Layers(b.base);
  }

  lemma SetPeginSpentCorrect(v: View, key: CoinsKey, spent: bool)
    requires v.Cache? && Inv(v) && !key.IsNative()
    ensures var v' := SetPeginSpent(v, key, spent);
      && v'.Cache? && Inv(v') && Layers(v'.base) == Layers(v.base)
      && Shows(v') == PutPegin(Shows(v), key, spent)
      && (spent == (key in Shows(v).pegins) ==> v'.entries == v.entries)
  {
    var l := Shows(v.base);
    ShowsWellFormed(v.base);
    IsPeginSpentCorrect(v.base, key);
    var base := IsPeginSpent(v.base, key).0;
    assert Shows(base) == Layers(base)[0] == Layers(v.base)[0];
    if key in v.entries { assert EntryOk(l, key, v.entries[key]); }
    var after := SetPeginSpent(v, key, spent).entries;
    assert after == v.entries || EntryOk(l, key, after[key]);
    PeginChanged(l, v.entries, after, key, spent);
  }

  /** An entry that lives above this level only stays FRESH, so that spending it leaves nothing behind. */
  lemma FreshStays(v: View, o: OutPoint, coin: Coin, possibleOverwrite: bool)
    requires v.Cache? && Spendable(coin.out.script) && AddCoin(v, o, coin, possibleOverwrite).Done?
    requires NativeKey(o) in v.entries && v.entries[NativeKey(o)].isFresh
    ensures SpendCoin(AddCoin(v, o, coin, possibleOverwrite).value, o) ==
      (Cache(v.base, v.entries - {NativeKey(o)}), Some(coin))
  {
    var r := AddCoin(v, o, coin, possibleOverwrite).value;
    assert r.entries - {NativeKey(o)} == v.entries - {NativeKey(o)};
  }

  lemma PeginChanged(l: Ledger, before: CoinsMap, after: CoinsMap, key: CoinsKey, spent: bool)
    requires l.WellFormed() && EntriesOk(l, before) && EntriesOk(l, after) && !key.IsNative()
    requires forall k | k != key :: (k in before <==> k in after) && (k in before ==> before[k] == after[k])
    requires OverlayPegin(l, after, key) == spent
    ensures Overlay(l, after) == PutPegin(Overlay(l, before), key, spent)
  {
    OverlayAt(l, before);
    OverlayAt(l, after);
    var expected := PutPegin(Overlay(l, before), key, spent);
    assert forall x :: expected.CoinAt(x) == Overlay(l, before).CoinAt(x);
    LedgersEqual(Overlay(l, after), expected);
  }

  // ----- Flush -----

  /** Merging a child's dirty entries makes the parent show what the child showed. */
  lemma MergeCorrect(below: Ledger, us: CoinsMap, them: CoinsMap)
    requires below.WellFormed() && EntriesOk(below, us) && EntriesOk(Overlay(below, us), them)
    ensures forall k | k in them :: !Misapplied(us, them, k)
    ensures EntriesOk(below, Merge(us, them))
    ensures Overlay(below, Merge(us, them)) == Overlay(Overlay(below, us), them)
  {
    var mid := Overlay(below, us);
    var merged := Merge(us, them);
    OverlayAt(below, us);
    OverlayAt(mid, them);
    forall k
      ensures k in them ==> !Misapplied(us, them, k)
      ensures k in merged ==> EntryOk(below, k, merged[k])
    {
      MergeKeyOk(below, us, them, k);
    }
    OverlayAt(below, merged);
    forall o ensures OverlayCoin(below, merged, o) == OverlayCoin(mid, them, o) {
      MergeKeyOk(below, us, them, NativeKey(o));
    }
    forall k ensures OverlayPegin(below, merged, k) <==> OverlayPegin(mid, them, k) {
      if !k.IsNative() { MergeKeyOk(below, us, them, k); }
    }
    LedgersEqual(Overlay(below, merged), Overlay(mid, them));
  }

  lemma MergeKeyOk(below: Ledger, us: CoinsMap, them: CoinsMap, k: CoinsKey)
    requires below.WellFormed() && EntriesOk(below, us) && EntriesOk(Overlay(below, us), them)
    ensures k in them ==> !Misapplied(us, them, k)
    ensures MergeAt(us, them, k).Some? ==> EntryOk(below, k, MergeAt(us, them, k).value)
    ensures k.IsNative() ==>
      OverlayCoin(below, Merge(us, them), k.outpoint) == OverlayCoin(Overlay(below, us), them, k.outpoint)
    ensures !k.IsNative() ==> (OverlayPegin(below, Merge(us, them), k) <==> OverlayPegin(Overlay(below, us), them, k))
  {
    var mid := Overlay(below, us);
    OverlayAt(below, us);
    if k.IsNative() {
      assert NativeKey(k.outpoint) == k;
      assert mid.CoinAt(k.outpoint) == OverlayCoin(below, us, k.outpoint);
    } else {
      assert k in mid.pegins <==> OverlayPegin(below, us, k);
    }
    if k in us { assert EntryOk(below, k, us[k]); }
    if k in them { assert EntryOk(mid, k, them[k]); }
    assert k in Merge(us, them) <==> MergeAt(us, them, k).Some?;
  }

  /** A merge keeps the FRESH flags of the parent and never keeps a FRESH entry that is absent. */
  lemma MergeFlags(us: CoinsMap, them: CoinsMap, k: CoinsKey)
    requires Flagged(us) && Flagged(them) && k in them && them[k].isDirty
    ensures k in Merge(us, them) ==>
      && Merge(us, them)[k].isDirty
      && Merge(us, them)[k].isFresh == (if k in us then us[k] else them[k]).isFresh
      && !(Merge(us, them)[k].isFresh && Merge(us, them)[k].Absent())
    ensures k !in Merge(us, them) <==> (if k in us then us[k] else them[k]).isFresh && them[k].Absent()
  {
    assert k in Merge(us, them) <==> MergeAt(us, them, k).Some?;
  }

  lemma WriteLedgerCorrect(l: Ledger, them: CoinsMap)
    requires l.WellFormed() && EntriesOk(l, them)
    ensures WriteLedger(l, them) == Overlay(l, them)
  {
    OverlayAt(l, them);
    var w := WriteLedger(l, them);
    forall o
      ensures w.CoinAt(o) == OverlayCoin(l, them, o)
      ensures o in w.coins ==> !w.coins[o].IsSpent()
    {
      if NativeKey(o) in them {
        assert NativeKey(o).outpoint == o;
        assert EntryOk(l, NativeKey(o), them[NativeKey(o)]);
      }
    }
    forall k ensures k in w.pegins <==> OverlayPegin(l, them, k) {
      if k in them { assert EntryOk(l, k, them[k]); }
    }
    LedgersEqual(w, Overlay(l, them));
  }

  /** BatchWrite never throws, and moves the difference down without touching what lies lower. */
  lemma BatchWriteCorrect(v: View, them: CoinsMap)
    requires Inv(v) && EntriesOk(Shows(v), them)
    ensures var r := BatchWrite(v, them);
      && r.Done? && Inv(r.value) && r.value.Cache? == v.Cache?
      && Layers(r.value) == Layers(v)[0 := Overlay(Shows(v), them)]
  {
    match v
    case Database(l) =>
      WriteLedgerCorrect(l, them);
      OverlayAt(l, them);
    case Cache(base, us) =>
      ShowsWellFormed(base);
      MergeCorrect(Shows(base), us, them);
      var r := Cache(base, Merge(us, them));
      assert BatchWrite(v, them) == Done(r);
      TopChanged(v, r);
  }

  lemma FlushCorrect(v: View)
    requires v.Cache? && Inv(v)
    ensures var r := Flush(v);
      && r.Done? && r.value.Cache? && r.value.entries == map[] && Inv(r.value)
      && Layers(r.value) == Layers(v)[1 := Layers(v)[0]]
  {
    BatchWriteCorrect(v.base, v.entries);
    var r := Flush(v).value;
    ShowsWellFormed(r.base);
    EmptyOverlay(Shows(r.base));
    assert Shows(r.base) == Layers(r.base)[0];
  }

  lemma EmptyOverlay(l: Ledger)
    requires l.WellFormed()
    ensures Overlay(l, map[]) == l
  {
    OverlayAt(l, map[]);
    LedgersEqual(Overlay(l, map[]), l);
  }

  /**
    A coin added over a cache without an entry for it leaves no trace when it is spent: adding
    it on top and flushing is adding it one level lower, and spending it there restores the stack.
  */
  lemma PassingCoin(v: View, o: OutPoint, coin: Coin)
    requires v.Cache? && Spendable(coin.out.script) && NativeKey(o) !in v.entries
    ensures var below := AddCoin(v, o, coin, false);
      && AddCoin(Cache(v, map[]), o, coin, false).Done? && below.Done? && below.value.Cache?
      && Flush(AddCoin(Cache(v, map[]), o, coin, false).value) == Done(Cache(below.value, map[]))
      && SpendCoin(below.value, o) == (v, Some(coin))
  {
    var entry := Entry(coin, false, true, true, false);
    var top: CoinsMap := map[NativeKey(o) := entry];
    assert AddCoin(Cache(v, map[]), o, coin, false) == Done(Cache(v, top));
    assert AddCoin(v, o, coin, false) == Done(Cache(v.base, v.entries[NativeKey(o) := entry]));
    hide AddCoin;
    MergeOne(v.entries, NativeKey(o), entry);
    assert SpendEntry(v.entries[NativeKey(o) := entry], NativeKey(o)) == v.entries;
  }

  lemma MergeOne(us: CoinsMap, key: CoinsKey, entry: Entry)
    requires key !in us && entry.isDirty && !entry.coin.IsSpent() && !entry.isPegin && !entry.peginSpent
    ensures Merge(us, map[key := entry]) == us[key := entry]
    ensures forall k | k in (map[key := entry]) :: !Misapplied(us, map[key := entry], k)
  {
  }

  // ----- Runs -----

  /**
    Fetch, QueryPegin, Uncache and Flush act on the layer at the given depth from the top;
    Add, Spend and SetPegin act on the top; Push puts an empty cache on top and Drop
    destroys the top cache with whatever it did not flush.
  */
  datatype Op =
    | Add(o: OutPoint, coin: Coin, possibleOverwrite: bool)
    | Spend(o: OutPoint)
    | SetPegin(key: CoinsKey, spent: bool)
    | Fetch(depth: nat, o: OutPoint)
    | QueryPegin(depth: nat, key: CoinsKey)
    | Uncaching(depth: nat, o: OutPoint)
    | Flushing(depth: nat)
    | Push
    | Drop

  /** An operation the code accepts: the asserts and the discipline of AddCoin hold. */
  ghost predicate Legal(ls: seq<Ledger>, op: Op)
    requires |ls| >= 1
  {
    match op
    case Add(o, coin, ow) => |ls| >= 2 && !coin.IsSpent() && MayAdd(ls[0], o, coin, ow)
    case Spend(_) => |ls| >= 2
    case SetPegin(key, _) => |ls| >= 2 && !key.IsNative()
    case Fetch(d, _) => d < |ls|
    case QueryPegin(d, key) => d < |ls| && !key.IsNative()
    case Uncaching(d, _) => d + 1 < |ls|
    case Flushing(d) => d + 1 < |ls|
    case Push => true
    case Drop => |ls| >= 2
  }

  /** The same operation on plain ledgers, one per layer. */
  ghost function SpecStep(ls: seq<Ledger>, op: Op): (r: seq<Ledger>)
    requires |ls| >= 1 && Legal(ls, op)
    ensures |r| >= 1
  {
    match op
    case Add(o, coin, _) => ls[0 := PutCoin(ls[0], o, coin)]
    case Spend(o) => ls[0 := RemoveCoin(ls[0], o)]
    case SetPegin(key, spent) => ls[0 := PutPegin(ls[0], key, spent)]
    case Flushing(d) => ls[d + 1 := ls[d]]
    case Push => [ls[0]] + ls
    case Drop => ls[1..]
    case _ => ls
  }

  function Step(v: View, op: Op): Outcome<View> {
    match op
    case Add(o, coin, ow) => if v.Cache? && !coin.IsSpent() then AddCoin(v, o, coin, ow) else LogicError
    case Spend(o) => if v.Cache? then Done(SpendCoin(v, o).0) else LogicError
    case SetPegin(key, spent) => if v.Cache? then Done(SetPeginSpent(v, key, spent)) else LogicError
    case Push => Done(Cache(v, map[]))
    case Drop => if v.Cache? then Done(v.base) else LogicError
    case _ => StepAt(v, op.depth, op)
  }

  predicate Lower(op: Op) {
    op.Fetch? || op.QueryPegin? || op.Uncaching? || op.Flushing?
  }

  function StepAt(v: View, depth: nat, op: Op): Outcome<View>
    requires Lower(op)
    decreases depth
  {
    if depth == 0 then
      match op
      case Fetch(_, o) => Done(GetCoin(v, o).0)
      case QueryPegin(_, key) => Done(IsPeginSpent(v, key).0)
      case Uncaching(_, o) => if v.Cache? then Done(Uncache(v, o)) else LogicError
      case Flushing(_) => if v.Cache? then Flush(v) else LogicError
    else if v.Database? then LogicError
    else
      match StepAt(v.base, depth - 1, op)
      case LogicError => LogicError
      case Done(base) => Done(Cache(base, v.entries))
  }

  function Run(v: View, ops: seq<Op>): Outcome<View>
    decreases |ops|
  {
    if ops == [] then Done(v) else
    match Step(v, ops[0])
    case LogicError => LogicError
    case Done(v') => Run(v', ops[1..])
  }

  ghost predicate LegalRun(ls: seq<Ledger>, ops: seq<Op>)
    requires |ls| >= 1
    decreases |ops|
  {
    ops != [] ==> Legal(ls, ops[0]) && LegalRun(SpecStep(ls, ops[0]), ops[1..])
  }

  ghost function SpecRun(ls: seq<Ledger>, ops: seq<Op>): (r: seq<Ledger>)
    requires |ls| >= 1 && LegalRun(ls, ops)
    ensures |r| >= 1
    decreases |ops|
  {
    if ops == [] then ls else SpecRun(SpecStep(ls, ops[0]), ops[1..])
  }

  lemma StepHereCorrect(v: View, op: Op)
    requires Lower(op) && Inv(v)
    requires op.QueryPegin? ==> !op.key.IsNative()
    requires op.Uncaching? || op.Flushing? ==> v.Cache?
    ensures var r := StepAt(v, 0, op);
      && r.Done? && Inv(r.value)
      && Layers(r.value) == if op.Flushing? then Layers(v)[1 := Layers(v)[0]] else Layers(v)
  {
    match op
    case Fetch(_, o) => GetCoinCorrect(v, o);
    case QueryPegin(_, key) => IsPeginSpentCorrect(v, key);
    case Uncaching(_, o) => UncacheCorrect(v, o);
    case Flushing(_) => FlushCorrect(v);
  }

  /** Work at a lower layer leaves that layer and the ones above it showing the same. */
  lemma {:induction false} StepAtCorrect(v: View, depth: nat, op: Op)
    requires Lower(op) && Inv(v) && depth < |Layers(v)|
    requires op.QueryPegin? ==> !op.key.IsNative()
    requires op.Uncaching? || op.Flushing? ==> depth + 1 < |Layers(v)|
    ensures var r := StepAt(v, depth, op);
      && r.Done? && Inv(r.value)
      && Layers(r.value) == if op.Flushing? then Layers(v)[depth + 1 := Layers(v)[depth]] else Layers(v)
    decreases depth
  {
    hide StepAt, Inv, Shows;
    if depth == 0 {
      StepHereCorrect(v, op);
    } else {
      StepBelow(v, depth, op);
      StepAtCorrect(v.base, depth - 1, op);
      Rebased(v, StepAt(v.base, depth - 1, op).value);
    }
  }

  lemma StepBelow(v: View, depth: nat, op: Op)
    requires Lower(op) && Inv(v) && 0 < depth < |Layers(v)|
    ensures v.Cache? && Inv(v.base) && Layers(v.base)[0] == Shows(v.base)
    ensures StepAt(v.base, depth - 1, op).Done? ==>
      StepAt(v, depth, op) == Done(Cache(StepAt(v.base, depth - 1, op).value, v.entries))
  {
  }

  /** A cache over a base that shows the same shows the same. */
  lemma Rebased(v: View, base: View)
    requires v.Cache? && Inv(v) && Inv(base) && Layers(base)[0] == Shows(v.base)
    ensures Inv(Cache(base, v.entries))
    ensures Layers(v) == [Shows(v)] + Layers(v.base)
    ensures Layers(Cache(base, v.entries)) == [Shows(v)] + Layers(base)
  {
  }

  lemma StepCorrect(v: View, op: Op)
    requires Inv(v) && Legal(Layers(v), op)
    ensures var r := Step(v, op);
      r.Done? && Inv(r.value) && Layers(r.value) == SpecStep(Layers(v), op)
  {
    match op
    case Add(o, coin, ow) =>
      AddCoinCorrect(v, o, coin, ow);
      var r := Step(v, op).value;
      TopChanged(v, r);
    case Spend(o) =>
      SpendCoinCorrect(v, o);
      TopChanged(v, SpendCoin(v, o).0);
    case SetPegin(key, spent) =>
      SetPeginSpentCorrect(v, key, spent);
      TopChanged(v, SetPeginSpent(v, key, spent));
    case Push =>
      ShowsWellFormed(v);
      EmptyOverlay(Shows(v));
    case Drop =>
    case _ =>
      StepAtCorrect(v, op.depth, op);
  }

  lemma TopChanged(v: View, w: View)
    requires v.Cache? && w.Cache? && Layers(v.base) == Layers(w.base)
    ensures Layers(w) == Layers(v)[0 := Shows(w)]
  {
  }

  /**
    Main theorem. For every stack, however deep, and every run of legal operations, no
    operation throws, the invariant holds at the end and every layer shows exactly what a
    plain ledger for that layer holds after the same operations.
  */
  lemma {:induction false} StackRefinesLedgers(v: View, ops: seq<Op>)
    requires Inv(v) && LegalRun(Layers(v), ops)
    ensures var r := Run(v, ops);
      r.Done? && Inv(r.value) && Layers(r.value) == SpecRun(Layers(v), ops)
    decreases |ops|
  {
    if ops != [] {
      StepCorrect(v, ops[0]);
      StackRefinesLedgers(Step(v, ops[0]).value, ops[1..]);
    }
  }

  // ----- Unspendable outputs -----

  ghost predicate AllSpendable(ls: seq<Ledger>) {
    forall i, o | 0 <= i < |ls| && o in ls[i].coins :: Spendable(ls[i].coins[o].out.script)
  }

  /** A permitted AddCoin shows the new coin if its script can be spent, and changes nothing otherwise. */
  lemma AddedCoinShown(v: View, o: OutPoint, coin: Coin, possibleOverwrite: bool)
    requires v.Cache? && Inv(v) && coin.out != TxOut([], [], [], [])
    requires possibleOverwrite || o !in Shows(v).coins
    ensures var r := AddCoin(v, o, coin, possibleOverwrite);
      && r.Done?
      && (Spendable(coin.out.script) ==> Shows(r.value).coins == Shows(v).coins[o := coin])
      && (!Spendable(coin.out.script) ==> r.value == v)
      && Shows(r.value).pegins == Shows(v).pegins
  {
    AddCoinCorrect(v, o, coin, possibleOverwrite);
  }

  lemma StepSpendable(ls: seq<Ledger>, op: Op)
    requires |ls| >= 1 && Legal(ls, op) && AllSpendable(ls)
    ensures AllSpendable(SpecStep(ls, op))
  {
    var r := SpecStep(ls, op);
    forall i, o | 0 <= i < |r| && o in r[i].coins ensures Spendable(r[i].coins[o].out.script) {
      match op
      case Push => if i > 0 { assert r[i] == ls[i - 1]; }
      case Drop => assert r[i] == ls[i + 1];
      case _ =>
    }
  }

  /**
    In every legal run over layers without such coins, no layer ever shows a coin whose
    script is empty, too long or begins with OP_RETURN.
  */
  lemma {:induction false} RunShowsSpendable(v: View, ops: seq<Op>)
    requires Inv(v) && LegalRun(Layers(v), ops) && AllSpendable(Layers(v))
    ensures Run(v, ops).Done? && AllSpendable(Layers(Run(v, ops).value))
    decreases |ops|
  {
    if ops != [] {
      StepCorrect(v, ops[0]);
      StepSpendable(Layers(v), ops[0]);
      RunShowsSpendable(Step(v, ops[0]).value, ops[1..]);
    }
  }
}
