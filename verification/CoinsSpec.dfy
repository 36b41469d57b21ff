/**
  The write-back cache of unspent transaction outputs, as values.

  A view is either the database at the bottom or a cache on top of another view. Every
  operation of a cache is given here as a function from a stack of views to a stack of
  views; module CoinsViews holds the objects whose methods compute these functions, and
  module CoinsRefinement proves that a stack behaves like one plain ledger per layer.
*/
module CoinsSpec {
  import opened Wrappers

  type Byte = x: nat | x < 256

  /** A 256-bit hash; zero is the null hash. */
  type Hash = nat

  datatype OutPoint = OutPoint(hash: Hash, n: nat)

  /** Key of the coins map: a chain hash, null for native coins, and an outpoint. */
  datatype CoinsKey = CoinsKey(chain: Hash, outpoint: OutPoint) {
    predicate IsNative() {
      chain == 0
    }
  }

  function NativeKey(o: OutPoint): CoinsKey {
    CoinsKey(0, o)
  }

  const OP_RETURN: Byte := 0x6a
  const MAX_SCRIPT_SIZE := 10000

  /** A transaction output; a confidential field is null when it is empty. */
  datatype TxOut = TxOut(asset: seq<Byte>, value: seq<Byte>, nonce: seq<Byte>, script: seq<Byte>) {
    predicate IsNull() {
      asset == [] && value == [] && nonce == [] && script == []
    }

    predicate IsUnspendable() {
      script == [] || script[0] == OP_RETURN || |script| > MAX_SCRIPT_SIZE
    }
  }

  datatype Coin = Coin(out: TxOut, coinBase: bool, height: nat) {
    predicate IsSpent() {
      out.IsNull()
    }
  }

  /** The coin after Clear, and the coin of a default-constructed entry. */
  const CLEARED := Coin(TxOut([], [], [], []), false, 0)

  /** One cached coin or pegin mark with its DIRTY, FRESH and PEGIN flags. */
  datatype Entry = Entry(coin: Coin, peginSpent: bool, isDirty: bool, isFresh: bool, isPegin: bool) {
    /** What BatchWrite calls pruned: a spent coin, or a pegin that is not spent. */
    predicate Absent() {
      if isPegin then !peginSpent else coin.IsSpent()
    }
  }

  type CoinsMap = map<CoinsKey, Entry>

  /** A plain set of unspent coins and spent pegins, with no caching. */
  datatype Ledger = Ledger(coins: map<OutPoint, Coin>, pegins: set<CoinsKey>) {
    predicate WellFormed() {
      && (forall o | o in coins :: !coins[o].IsSpent())
      && (forall k | k in pegins :: !k.IsNative())
    }

    function CoinAt(o: OutPoint): Coin {
      if o in coins then coins[o] else CLEARED
    }
  }

  datatype View =
    | Database(ledger: Ledger)
    | Cache(base: View, entries: CoinsMap)

  datatype Outcome<+T> = Done(value: T) | LogicError

  /** GetCoin: the coin if it is unspent. Every cache it passes through keeps a copy. */
  function GetCoin(v: View, o: OutPoint): (View, Option<Coin>)
    decreases v
  {
    match v
    case Database(ledger) =>
      (v, if o in ledger.coins then Some(ledger.coins[o]) else None)
    case Cache(_, _) =>
      var fetched := FetchCoin(v, o);
      (fetched, if NativeKey(o) in fetched.entries && !fetched.entries[NativeKey(o)].coin.IsSpent()
      then Some(fetched.entries[NativeKey(o)].coin) else None)
  }

  /** FetchCoin: make sure the cache has an entry for the coin if its base has the coin. */
  function FetchCoin(v: View, o: OutPoint): (r: View)
    requires v.Cache?
    ensures r.Cache?
    decreases v, 0
  {
    if NativeKey(o) in v.entries then v else
    var (base, found) := GetCoin(v.base, o);
    match found
    case None => Cache(base, v.entries)
    case Some(coin) =>
      // A spent coin from the base would be fresh here.
      Cache(base, v.entries[NativeKey(o) := Entry(coin, false, false, coin.IsSpent(), false)])
  }

  function AddCoin(v: View, o: OutPoint, coin: Coin, possibleOverwrite: bool): Outcome<View>
    requires v.Cache?
    requires !coin.IsSpent()
  {
    if coin.out.IsUnspendable() then Done(v) else
    var key := NativeKey(o);
    var entry := if key in v.entries then v.entries[key] else Entry(CLEARED, false, false, false, false);
    if !possibleOverwrite && !entry.coin.IsSpent() then LogicError else
    var markFresh := !possibleOverwrite && !entry.isDirty;
    Done(v.(entries := v.entries[key := entry.(coin := coin, isDirty := true, isFresh := entry.isFresh || markFresh)]))
  }

  /** The entries after spending one of them: a FRESH entry is erased, another cleared. */
  function SpendEntry(entries: CoinsMap, key: CoinsKey): CoinsMap
    requires key in entries
  {
    if entries[key].isFresh then entries - {key}
    else entries[key := entries[key].(isDirty := true, coin := CLEARED)]
  }

  /** SpendCoin: the new view and, when an entry was found, the coin moved out of it. */
  function SpendCoin(v: View, o: OutPoint): (View, Option<Coin>)
    requires v.Cache?
  {
    var fetched := FetchCoin(v, o);
    var key := NativeKey(o);
    if key !in fetched.entries then (fetched, None)
    else (Cache(fetched.base, SpendEntry(fetched.entries, key)), Some(fetched.entries[key].coin))
  }

  function IsPeginSpent(v: View, key: CoinsKey): (View, bool)
    decreases v
  {
    match v
    case Database(ledger) => (v, key in ledger.pegins)
    case Cache(base, entries) =>
      if key in entries then (v, entries[key].peginSpent) else
      var (base', spent) := IsPeginSpent(base, key);
      (Cache(base', entries[key := Entry(CLEARED, spent, false, !spent, true)]), spent)
  }

  function SetPeginSpent(v: View, key: CoinsKey, spent: bool): View
    requires v.Cache?
  {
    if key in v.entries then
      if v.entries[key].peginSpent == spent then v else
      v.(entries := v.entries[key := v.entries[key].(peginSpent := spent, isPegin := true, isDirty := true)])
    else
      var (base, had) := IsPeginSpent(v.base, key);
      if had == spent then Cache(base, v.entries) else
      Cache(base, v.entries[key := Entry(CLEARED, spent, true, !had, true)])
  }

  function Uncache(v: View, o: OutPoint): View
    requires v.Cache?
  {
    var key := NativeKey(o);
    if key in v.entries && !v.entries[key].isDirty && !v.entries[key].isFresh && !v.entries[key].isPegin
    then v.(entries := v.entries - {key}) else v
  }

  /** The throw in BatchWrite: a FRESH entry meets an unspent coin in the parent. */
  predicate Misapplied(us: CoinsMap, them: CoinsMap, key: CoinsKey)
    requires key in them
  {
    them[key].isDirty && key in us && them[key].isFresh && !us[key].coin.IsSpent()
  }

  /** What BatchWrite leaves in the parent under one key. */
  function MergeAt(us: CoinsMap, them: CoinsMap, key: CoinsKey): Option<Entry> {
    if key !in them || !them[key].isDirty then
      if key in us then Some(us[key]) else None
    else
      var child := them[key];
      if key !in us then
        if child.isFresh && child.Absent() then None
        else if child.isPegin then Some(Entry(CLEARED, child.peginSpent, true, child.isFresh, true))
        else Some(Entry(child.coin, false, true, child.isFresh, false))
      else if us[key].isFresh && child.Absent() then None
      else if child.isPegin then Some(us[key].(peginSpent := child.peginSpent, isDirty := true))
      else Some(us[key].(coin := child.coin, isDirty := true))
  }

  function Merge(us: CoinsMap, them: CoinsMap): CoinsMap {
    map k | k in us.Keys + them.Keys && MergeAt(us, them, k).Some? :: MergeAt(us, them, k).value
  }

  /** The database after a batch: dirty entries only, spent coins and unspent pegins erased. */
  function WriteLedger(l: Ledger, them: CoinsMap): Ledger {
    Ledger(
      map o | o in l.coins.Keys + (set k | k in them :: k.outpoint) && LedgerCoin(l, them, o).Some?
        :: LedgerCoin(l, them, o).value,
      set k | k in l.pegins + them.Keys && LedgerPegin(l, them, k))
  }

  function LedgerCoin(l: Ledger, them: CoinsMap, o: OutPoint): Option<Coin> {
    var k := NativeKey(o);
    if k in them && them[k].isDirty && !them[k].isPegin then
      if them[k].coin.IsSpent() then None else Some(them[k].coin)
    else if o in l.coins then Some(l.coins[o]) else None
  }

  predicate LedgerPegin(l: Ledger, them: CoinsMap, k: CoinsKey) {
    if k in them && them[k].isDirty && them[k].isPegin then them[k].peginSpent else k in l.pegins
  }

  /** Native keys hold coins and all other keys hold pegin marks. */
  predicate Flagged(entries: CoinsMap) {
    forall k | k in entries :: entries[k].isPegin == !k.IsNative()
  }

  /** One entry of a batch written to the database: the two kinds of record have separate keys. */
  function WriteEntry(l: Ledger, key: CoinsKey, entry: Entry): Ledger {
    if !entry.isDirty then l
    else if entry.isPegin then
      l.(pegins := if entry.peginSpent then l.pegins + {key} else l.pegins - {key})
    else if entry.coin.IsSpent() then l.(coins := l.coins - {key.outpoint})
    else l.(coins := l.coins[key.outpoint := entry.coin])
  }

  /** A batch written in a given order. */
  function WriteEach(l: Ledger, them: CoinsMap, order: seq<CoinsKey>): Ledger
    requires forall k | k in order :: k in them
  {
    if order == [] then l else
    var k := order[|order| - 1];
    WriteEntry(WriteEach(l, them, order[..|order| - 1]), k, them[k])
  }

  /** An order in which the entries under a set of keys may be visited. */
  ghost predicate Lists(order: seq<CoinsKey>, keys: set<CoinsKey>) {
    |order| == |keys| && forall k :: k in order <==> k in keys
  }

  function BatchWrite(v: View, them: CoinsMap): Outcome<View> {
    match v
    case Database(l) => Done(Database(WriteLedger(l, them)))
    case Cache(base, us) =>
      if exists k | k in them :: Misapplied(us, them, k) then LogicError
      else Done(Cache(base, Merge(us, them)))
  }

  function Flush(v: View): Outcome<View>
    requires v.Cache?
  {
    match BatchWrite(v.base, v.entries)
    case LogicError => LogicError
    case Done(base) => Done(Cache(base, map[]))
  }
}
