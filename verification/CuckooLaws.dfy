/** What callers of a cuckoo cache can rely on: what is kept, for how long, and what is given up. */
module CuckooLaws {
  import opened CuckooSpec
  import opened CuckooLemmas

  /** An element in a slot that is not collectable, of the current epoch or the one before. */
  ghost predicate Kept<E>(c: Cache<E>, x: E, current: bool)
    requires c.Valid()
  {
    exists i :: 0 <= i < |c.table| && c.table[i] == x && !c.collected[i] && c.epoch[i] == current
  }

  // ----- Slots -----

  /** The n-th slot is the n-th hash as a fraction of the size, rounded down. */
  lemma SlotIsFraction<E(!new)>(h: Hash<E>, size: nat, e: E, n: nat)
    requires size > 0 && n < 8
    ensures var loc := Locs(h, size, e)[n];
      loc * 0x1_0000_0000 <= h(n, e) * size < (loc + 1) * 0x1_0000_0000
  {
  }

  // ----- Displacement -----

  /** Elements take their epoch along: whoever is still stored at the end is kept as it was. */
  lemma {:induction false} PlaceCarries<E(!new)>(h: Hash<E>, c: Cache<E>, e: E, lastLoc: int, lastEpoch: bool,
      depth: nat, default: E, x: E, current: bool)
    requires c.Valid() && Unique(c.table, default) && (e == default || e !in c.table) && x != default
    requires (x == e && current == lastEpoch) || Kept(c, x, current)
    ensures var r := Place(h, c, e, lastLoc, lastEpoch, depth).cache; x in r.table ==> Kept(r, x, current)
    decreases depth
  {
    if depth > 0 {
      var locs := Locs(h, |c.table|, e);
      var k := FirstWith(locs, c.collected);
      if k < 8 {
        FillCarries(c, locs[k], e, lastEpoch, x, current);
      } else {
        var loc := NextVictim(locs, lastLoc);
        SwapCarries(c, loc, e, lastEpoch, default, x, current);
        PlaceCarries(h, Displace(c, loc, e, lastEpoch), c.table[loc], loc, c.epoch[loc], depth - 1, default, x,
                     current);
      }
    }
  }

  lemma FillCarries<E>(c: Cache<E>, loc: nat, e: E, flag: bool, x: E, current: bool)
    requires c.Valid() && loc < |c.table| && c.collected[loc]
    requires (x == e && current == flag) || Kept(c, x, current)
    ensures Kept(Fill(c, loc, e, flag), x, current)
  {
    var d := Fill(c, loc, e, flag);
    if x == e && current == flag {
      assert d.table[loc] == x && !d.collected[loc] && d.epoch[loc] == current;
    } else {
      var i :| 0 <= i < |c.table| && c.table[i] == x && !c.collected[i] && c.epoch[i] == current;
      assert d.table[i] == x && !d.collected[i] && d.epoch[i] == current;
    }
  }

  lemma SwapCarries<E>(c: Cache<E>, loc: nat, e: E, flag: bool, default: E, x: E, current: bool)
    requires c.Valid() && loc < |c.table| && !c.collected[loc]
    requires Unique(c.table, default) && (e == default || e !in c.table) && x != default
    requires (x == e && current == flag) || Kept(c, x, current)
    ensures var d := Displace(c, loc, e, flag);
      && Unique(d.table, default) && (c.table[loc] == default || c.table[loc] !in d.table)
      && ((x == c.table[loc] && current == c.epoch[loc]) || Kept(d, x, current))
  {
    var d := Displace(c, loc, e, flag);
    Displaced(c.table, loc, e, default);
    if x == e && current == flag {
      assert d.table[loc] == x && !d.collected[loc] && d.epoch[loc] == current;
    } else {
      var i :| 0 <= i < |c.table| && c.table[i] == x && !c.collected[i] && c.epoch[i] == current;
      if i != loc { assert d.table[i] == x && !d.collected[i] && d.epoch[i] == current; }
    }
  }

  /** The search goes on at the slot after the one just taken, so it does not undo the last move. */
  lemma VictimFollows(locs: seq<nat>, k: nat)
    requires |locs| == 8 && k < 8 && forall i, j | 0 <= i < j < 8 :: locs[i] != locs[j]
    ensures NextVictim(locs, locs[k]) == locs[if k == 7 then 0 else k + 1] != locs[k]
  {
    FirstIndexAt(locs, k);
  }

  lemma {:induction false} FirstIndexAt(locs: seq<nat>, k: nat)
    requires k < |locs| && forall i, j | 0 <= i < j < |locs| :: locs[i] != locs[j]
    ensures FirstIndex(locs, locs[k]) == k
    decreases |locs|
  {
    if k > 0 { FirstIndexAt(locs[1..], k - 1); }
  }

  // ----- Epochs -----

  /**
    Elements are given up only when the counter has run out and the current epoch is full,
    and then exactly those of the epoch before.
  */
  lemma EpochCheckGivesUp<E>(c: Cache<E>)
    requires c.Valid()
    ensures var d := EpochCheck(c);
      if c.counter == 0 && |Current(c.collected, c.epoch)| >= c.epochSize then
        && Previous(d.collected, d.epoch) == Current(c.collected, c.epoch)
        && Current(d.collected, d.epoch) == {}
      else
        d.collected == c.collected && d.epoch == c.epoch
  {
  }

  /** The next scan is due when the epoch could be full at the earliest, and not after too few insertions. */
  lemma NextScan<E>(c: Cache<E>)
    requires c.Valid()
    ensures var d := EpochCheck(c);
      && (c.counter > 0 ==> d.counter == c.counter - 1)
      && (c.counter == 0 ==>
          && (c.epochSize > 0 ==> d.counter > 0) && 16 * d.counter + 15 >= c.epochSize
          && |Current(d.collected, d.epoch)| + d.counter >= c.epochSize)
  {
    if c.counter == 0 { EpochCheckGivesUp(c); }
  }

  lemma EpochCheckKeeps<E>(c: Cache<E>, x: E, current: bool)
    requires c.Valid() && Kept(c, x, current)
    ensures var d := EpochCheck(c);
      var aged := c.counter == 0 && |Current(c.collected, c.epoch)| >= c.epochSize;
      if !aged then Kept(d, x, current)
      else (current ==> Kept(d, x, false)) && d.counter == c.epochSize
  {
    var d := EpochCheck(c);
    var i :| 0 <= i < |c.table| && c.table[i] == x && !c.collected[i] && c.epoch[i] == current;
    assert d.table[i] == x;
  }

  // ----- Insertion -----

  /** The insertion of e runs out of depth with x in hand. */
  ghost predicate Drops<E(!new)>(h: Hash<E>, c: Cache<E>, e: E, x: E)
    requires c.Valid()
  {
    !Contains(h, c, e, false).1 && Place(h, EpochCheck(c), e, -1, true, c.depthLimit).lostLive &&
    Place(h, EpochCheck(c), e, -1, true, c.depthLimit).lost == x
  }

  /** An element inserted is of the current epoch and not collectable, if it was there already or got a slot. */
  lemma InsertedIsKept<E(!new)>(h: Hash<E>, c: Cache<E>, e: E, default: E)
    requires c.Valid() && AtHome(h, c, default) && Unique(c.table, default) && e != default
    ensures var r := Insert(h, c, e);
      && (e in c.table ==> Kept(r, e, true))
      && (e in r.table ==> Kept(r, e, true))
      && (e in r.table <==> !Drops(h, c, e, e))
  {
    var d, r := EpochCheck(c), Insert(h, c, e);
    EpochCheckKeepsHomes(h, c, default);
    FoundIff(h, d, e, default);
    var locs := Locs(h, |c.table|, e);
    var k := FirstEqual(locs, d.table, e);
    if k < 8 {
      assert r.table[locs[k]] == e && !r.collected[locs[k]] && r.epoch[locs[k]];
    } else {
      PlaceCarries(h, d, e, -1, true, d.depthLimit, default, e, true);
      PlaceMultiset(h, d, e, -1, true, d.depthLimit);
      PlaceLoses(h, d, e, -1, true, d.depthLimit);
      StillStored(d.table, r.table, e, Place(h, d, e, -1, true, d.depthLimit).lost, e);
    }
  }

  lemma StillStored<E>(before: seq<E>, after: seq<E>, e: E, lost: E, x: E)
    requires multiset(after) + multiset{lost} == multiset(before) + multiset{e}
    ensures x in after ==> x in before || x == e
    ensures x in before || x == e ==> x in after || x == lost
    ensures x == e == lost && e !in before ==> x !in after
  {
    assert x in before <==> x in multiset(before);
    assert x in after <==> x in multiset(after);
    var left, right := multiset(after) + multiset{lost}, multiset(before) + multiset{e};
    assert left[x] == multiset(after)[x] + (if x == lost then 1 else 0);
    assert right[x] == multiset(before)[x] + (if x == e then 1 else 0);
  }

  /** Another element is kept as it was, unless the insertion drops it. */
  lemma InsertSpares<E(!new)>(h: Hash<E>, c: Cache<E>, e: E, default: E, x: E, current: bool)
    requires c.Valid() && AtHome(h, c, default) && Unique(c.table, default) && x != default && x != e
    requires Kept(EpochCheck(c), x, current) && !Drops(h, c, e, x)
    ensures Kept(Insert(h, c, e), x, current)
  {
    hide Place, EpochCheck, AtHome;
    EpochCheckKeepsHomes(h, c, default);
    var d, locs := EpochCheck(c), Locs(h, |c.table|, e);
    var k := FirstEqual(locs, d.table, e);
    if k < 8 {
      KeptBeside(d, locs[k], e, x, current);
    } else {
      if e != default { FoundIff(h, d, e, default); }
      PlaceSpares(h, d, e, default, x, current);
    }
  }

  lemma KeptBeside<E>(c: Cache<E>, loc: nat, e: E, x: E, current: bool)
    requires c.Valid() && loc < |c.table| && c.table[loc] == e != x && Kept(c, x, current)
    ensures Kept(Fill(c, loc, e, true), x, current)
  {
    var r := Fill(c, loc, e, true);
    var i :| 0 <= i < |c.table| && c.table[i] == x && !c.collected[i] && c.epoch[i] == current;
    assert r.table[i] == x && !r.collected[i] && r.epoch[i] == current;
  }

  lemma PlaceSpares<E(!new)>(h: Hash<E>, d: Cache<E>, e: E, default: E, x: E, current: bool)
    requires d.Valid() && Unique(d.table, default) && (e == default || e !in d.table) && x != default && x != e
    requires Kept(d, x, current)
    requires var p := Place(h, d, e, -1, true, d.depthLimit); !(p.lostLive && p.lost == x)
    ensures Kept(Place(h, d, e, -1, true, d.depthLimit).cache, x, current)
  {
    hide Place;
    var p := Place(h, d, e, -1, true, d.depthLimit);
    PlaceCarries(h, d, e, -1, true, d.depthLimit, default, x, current);
    PlaceMultiset(h, d, e, -1, true, d.depthLimit);
    PlaceLoses(h, d, e, -1, true, d.depthLimit);
    StillStored(d.table, p.cache.table, e, p.lost, x);
    KeptIsNotCollected(d, default, x, current);
  }

  lemma KeptIsNotCollected<E>(d: Cache<E>, default: E, x: E, current: bool)
    requires d.Valid() && Unique(d.table, default) && x != default && Kept(d, x, current)
    ensures x in d.table && !WasCollected(d, x)
  {
    var i :| 0 <= i < |d.table| && d.table[i] == x && !d.collected[i] && d.epoch[i] == current;
    assert forall j | 0 <= j < |d.table| && d.table[j] == x :: j == i;
  }

  // ----- Lookups -----

  /** Asking for erasure marks the slot of the element and no other; otherwise nothing changes. */
  lemma ContainsMarks<E(!new)>(h: Hash<E>, c: Cache<E>, e: E, erase: bool, default: E)
    requires c.Valid() && AtHome(h, c, default) && Unique(c.table, default) && e != default
    ensures var r := Contains(h, c, e, erase).0;
      && r == c.(collected := r.collected)
      && forall i | 0 <= i < |c.table| :: r.collected[i] <==> c.collected[i] || (erase && c.table[i] == e)
  {
    FoundIff(h, c, e, default);
  }

  lemma ContainsSpares<E(!new)>(h: Hash<E>, c: Cache<E>, e: E, erase: bool, x: E, current: bool)
    requires c.Valid() && Kept(c, x, current) && (x == e ==> !erase)
    ensures Kept(Contains(h, c, e, erase).0, x, current)
  {
    var r := Contains(h, c, e, erase).0;
    var i :| 0 <= i < |c.table| && c.table[i] == x && !c.collected[i] && c.epoch[i] == current;
    assert r.table[i] == x && !r.collected[i] && r.epoch[i] == current;
  }

  // ----- Runs -----

  ghost function After<E(!new)>(h: Hash<E>, c: Cache<E>, op: Op<E>): (r: Cache<E>)
    requires c.Valid()
    ensures r.Valid()
  {
    match op case OpInsert(e) => Insert(h, c, e) case OpContains(e, erase) => Contains(h, c, e, erase).0
  }

  ghost function AfterAll<E(!new)>(h: Hash<E>, c: Cache<E>, ops: seq<Op<E>>): (r: Cache<E>)
    requires c.Valid()
    ensures r.Valid()
    decreases |ops|
  {
    if ops == [] then c else AfterAll(h, After(h, c, ops[0]), ops[1..])
  }

  function Insertions<E>(ops: seq<Op<E>>): nat {
    if ops == [] then 0 else (if ops[0].OpInsert? then 1 else 0) + Insertions(ops[1..])
  }

  /** No operation asks to erase x, and no insertion runs out of depth with x in hand. */
  ghost predicate LeftAlone<E(!new)>(h: Hash<E>, c: Cache<E>, ops: seq<Op<E>>, x: E)
    requires c.Valid()
    decreases |ops|
  {
    ops != [] ==>
      && (match ops[0] case OpInsert(e) => !Drops(h, c, e, x) case OpContains(e, erase) => e == x ==> !erase)
      && LeftAlone(h, After(h, c, ops[0]), ops[1..], x)
  }

  /** Kept for this many insertions more: not yet demoted, or demoted with the next scan further off. */
  ghost predicate Safe<E>(c: Cache<E>, x: E, n: nat)
    requires c.Valid()
  {
    n <= c.epochSize && (Kept(c, x, true) || (Kept(c, x, false) && n <= c.counter))
  }

  lemma SafeStep<E(!new)>(h: Hash<E>, c: Cache<E>, op: Op<E>, default: E, x: E, n: nat)
    requires c.Valid() && AtHome(h, c, default) && Unique(c.table, default) && x != default && Safe(c, x, n)
    requires match op case OpInsert(e) => n > 0 && !Drops(h, c, e, x) case OpContains(e, erase) => e == x ==> !erase
    ensures Safe(After(h, c, op), x, if op.OpInsert? then n - 1 else n)
    ensures AtHome(h, After(h, c, op), default) && Unique(After(h, c, op).table, default)
  {
    hide Kept, AtHome, Unique, Place, EpochCheck;
    match op
    case OpInsert(e) =>
      InsertKeepsHomes(h, c, e, default);
      NextScan(c);
      var current := Kept(c, x, true);
      var aged := c.counter == 0 && |Current(c.collected, c.epoch)| >= c.epochSize;
      EpochCheckKeeps(c, x, current);
      InsertSettings(h, c, e);
      if e == x {
        InsertedIsKept(h, c, e, default);
      } else {
        InsertSpares(h, c, e, default, x, current && !aged);
      }
    case OpContains(e, erase) =>
      ContainsKeepsHomes(h, c, e, erase, default);
      ContainsSpares(h, c, e, erase, x, Kept(c, x, true));
  }

  lemma InsertSettings<E(!new)>(h: Hash<E>, c: Cache<E>, e: E)
    requires c.Valid()
    ensures Insert(h, c, e).epochSize == c.epochSize && Insert(h, c, e).counter == EpochCheck(c).counter
  {
    PlaceCounts(h, EpochCheck(c), e, -1, true, c.depthLimit);
  }

  /**
    Main theorem. An element that was inserted is found for as many insertions more as an epoch
    has elements, unless it is erased or a displacement chain runs out of depth with it.
  */
  lemma InsertedSurvives<E(!new)>(h: Hash<E>, c: Cache<E>, x: E, ops: seq<Op<E>>, default: E)
    requires c.Valid() && AtHome(h, c, default) && Unique(c.table, default) && x != default && !Drops(h, c, x, x)
    requires Insertions(ops) <= c.epochSize && LeftAlone(h, Insert(h, c, x), ops, x)
    ensures Contains(h, AfterAll(h, Insert(h, c, x), ops), x, false).1
  {
    hide Kept, AtHome, Unique, Insert, Contains, AfterAll, LeftAlone, Drops;
    InsertedIsKept(h, c, x, default);
    InsertKeepsHomes(h, c, x, default);
    InsertSettings(h, c, x);
    SurvivesAnEpoch(h, Insert(h, c, x), ops, default, x, c.epochSize);
  }

  lemma {:induction false} SurvivesAnEpoch<E(!new)>(h: Hash<E>, c: Cache<E>, ops: seq<Op<E>>, default: E, x: E, n: nat)
    requires c.Valid() && AtHome(h, c, default) && Unique(c.table, default) && x != default
    requires Safe(c, x, n) && Insertions(ops) <= n && LeftAlone(h, c, ops, x)
    ensures Contains(h, AfterAll(h, c, ops), x, false).1
    decreases |ops|
  {
    hide Kept, AtHome, Unique, Insert, Contains;
    if ops == [] {
      SafeIsFound(h, c, default, x, n);
    } else {
      SafeStep(h, c, ops[0], default, x, n);
      SurvivesAnEpoch(h, After(h, c, ops[0]), ops[1..], default, x, if ops[0].OpInsert? then n - 1 else n);
    }
  }

  lemma SafeIsFound<E(!new)>(h: Hash<E>, c: Cache<E>, default: E, x: E, n: nat)
    requires c.Valid() && AtHome(h, c, default) && x != default && Safe(c, x, n)
    ensures Contains(h, c, x, false).1
  {
    FoundIff(h, c, x, default);
  }

  /** An epoch is 45% of the table, as long as the product fits into 32 bits, and at least one element. */
  lemma EpochIsPart<E>(newSize: nat, default: E, depthLimit: nat)
    requires 3 <= newSize && 45 * newSize < TWO32
    ensures var c := Setup(newSize, default, depthLimit);
      && |c.table| == newSize && c.epochSize >= 1
      && 100 * c.epochSize <= 45 * newSize < 100 * (c.epochSize + 1)
      && c.counter == c.epochSize
      && forall i | 0 <= i < newSize :: c.collected[i] && c.table[i] == default
  {
  }
}
