/** What every run of a cuckoo cache keeps: its capacity bound and the places of its elements. */
module CuckooLemmas {
  import opened CuckooSpec

  // ----- Capacity -----

  /** The promise of the heuristic counter, and the bound on the epoch before. */
  ghost predicate Bounded<E>(c: Cache<E>)
    requires c.Valid()
  {
    && |Current(c.collected, c.epoch)| + c.counter <= EpochBound(c.epochSize)
    && |Previous(c.collected, c.epoch)| <= EpochBound(c.epochSize)
  }

  /** The live elements: at most two epochs of them. */
  ghost function Live(collected: seq<bool>): set<nat> {
    set i: nat | i < |collected| && !collected[i]
  }

  lemma LiveBound<E>(c: Cache<E>)
    requires c.Valid() && Bounded(c)
    ensures |Live(c.collected)| <= 2 * EpochBound(c.epochSize)
  {
    assert Live(c.collected) == Current(c.collected, c.epoch) + Previous(c.collected, c.epoch);
  }

  /** After the check there is room for one more element of the current epoch. */
  lemma EpochCheckBounded<E>(c: Cache<E>)
    requires c.Valid() && Bounded(c)
    ensures var d := EpochCheck(c);
      && d.epochSize == c.epochSize
      && |Current(d.collected, d.epoch)| + d.counter + 1 <= EpochBound(c.epochSize)
      && |Previous(d.collected, d.epoch)| <= EpochBound(c.epochSize)
  {
    var d := EpochCheck(c);
    if c.counter == 0 && |Current(c.collected, c.epoch)| >= c.epochSize {
      assert Current(d.collected, d.epoch) == {};
      assert Previous(d.collected, d.epoch) == Current(c.collected, c.epoch);
    }
  }

  /** A slot given to a live element with an epoch flag. */
  lemma SlotCounts(collected: seq<bool>, epoch: seq<bool>, loc: nat, flag: bool)
    requires |collected| == |epoch| && loc < |epoch|
    ensures var c, e := collected[loc := false], epoch[loc := flag];
      && Current(c, e) == (if flag then Current(collected, epoch) + {loc} else Current(collected, epoch) - {loc})
      && Previous(c, e) == (if flag then Previous(collected, epoch) - {loc} else Previous(collected, epoch) + {loc})
  {
  }

  ghost function Bit(b: bool): nat { if b then 1 else 0 }

  /** The counts after a slot changes hands: a live element that was there takes its count along. */
  lemma SlotSizes(collected: seq<bool>, epoch: seq<bool>, loc: nat, flag: bool)
    requires |collected| == |epoch| && loc < |epoch|
    ensures var c, e := collected[loc := false], epoch[loc := flag];
      && |Current(c, e)| + Bit(!collected[loc] && epoch[loc]) == |Current(collected, epoch)| + Bit(flag)
      && |Previous(c, e)| + Bit(!collected[loc] && !epoch[loc]) == |Previous(collected, epoch)| + Bit(!flag)
  {
    SlotCounts(collected, epoch, loc, flag);
    var current, previous := Current(collected, epoch), Previous(collected, epoch);
    assert loc in current <==> !collected[loc] && epoch[loc];
    assert loc in previous <==> !collected[loc] && !epoch[loc];
    SizeWithout(current, loc);
    SizeWithout(previous, loc);
  }

  lemma SizeWithout(s: set<nat>, x: nat)
    ensures |s + {x}| == |s - {x}| + 1
    ensures |s| == |s - {x}| + Bit(x in s)
  {
    assert s + {x} == (s - {x}) + {x};
    if x in s { assert s == (s - {x}) + {x}; } else { assert s == s - {x}; }
  }

  /** Displacing moves epoch flags around with the elements, so the counts grow only by the newcomer. */
  lemma {:induction false} PlaceCounts<E(!new)>(h: Hash<E>, c: Cache<E>, e: E, lastLoc: int, lastEpoch: bool,
      depth: nat)
    requires c.Valid()
    ensures var r := Place(h, c, e, lastLoc, lastEpoch, depth).cache;
      && r.counter == c.counter && r.epochSize == c.epochSize && r.depthLimit == c.depthLimit
      && |Current(r.collected, r.epoch)| <= |Current(c.collected, c.epoch)| + Bit(lastEpoch)
      && |Previous(r.collected, r.epoch)| <= |Previous(c.collected, c.epoch)| + Bit(!lastEpoch)
    decreases depth
  {
    hide Current, Previous;
    if depth > 0 {
      var locs := Locs(h, |c.table|, e);
      var k := FirstWith(locs, c.collected);
      if k < 8 {
        SlotSizes(c.collected, c.epoch, locs[k], lastEpoch);
      } else {
        var loc := NextVictim(locs, lastLoc);
        SlotSizes(c.collected, c.epoch, loc, lastEpoch);
        assert c.collected[loc := false] == c.collected;
        PlaceCounts(h, Displace(c, loc, e, lastEpoch), c.table[loc], loc, c.epoch[loc], depth - 1);
      }
    }
  }

  lemma InsertBounded<E(!new)>(h: Hash<E>, c: Cache<E>, e: E)
    requires c.Valid() && Bounded(c)
    ensures Bounded(Insert(h, c, e)) && Insert(h, c, e).epochSize == c.epochSize
  {
    EpochCheckBounded(c);
    var d := EpochCheck(c);
    var locs := Locs(h, |c.table|, e);
    var k := FirstEqual(locs, d.table, e);
    if k < 8 {
      SlotCounts(d.collected, d.epoch, locs[k], true);
    } else {
      PlaceCounts(h, d, e, -1, true, d.depthLimit);
    }
  }

  lemma ContainsBounded<E(!new)>(h: Hash<E>, c: Cache<E>, e: E, erase: bool)
    requires c.Valid() && Bounded(c)
    ensures Bounded(Contains(h, c, e, erase).0)
  {
    var d := Contains(h, c, e, erase).0;
    SubsetSize(Current(d.collected, d.epoch), Current(c.collected, c.epoch));
    SubsetSize(Previous(d.collected, d.epoch), Previous(c.collected, c.epoch));
  }

  lemma SubsetSize(a: set<nat>, b: set<nat>)
    requires a <= b
    ensures |a| <= |b|
  {
    assert b == a + (b - a);
  }

  // ----- What an insertion loses -----

  lemma {:induction false} PlaceMultiset<E(!new)>(h: Hash<E>, c: Cache<E>, e: E, lastLoc: int, lastEpoch: bool,
      depth: nat)
    requires c.Valid()
    ensures var r := Place(h, c, e, lastLoc, lastEpoch, depth);
      multiset(r.cache.table) + multiset{r.lost} == multiset(c.table) + multiset{e}
    decreases depth
  {
    if depth > 0 {
      var locs := Locs(h, |c.table|, e);
      var k := FirstWith(locs, c.collected);
      if k < 8 {
        SwapIn(c.table, locs[k], e);
      } else {
        var loc := NextVictim(locs, lastLoc);
        SwapIn(c.table, loc, e);
        PlaceMultiset(h, Displace(c, loc, e, lastEpoch), c.table[loc], loc, c.epoch[loc], depth - 1);
      }
    }
  }

  lemma SwapIn<E>(table: seq<E>, loc: nat, e: E)
    requires loc < |table|
    ensures multiset(table[loc := e]) + multiset{table[loc]} == multiset(table) + multiset{e}
  {
  }

  /** An element that makes way in a slot marked collectable was collectable all along. */
  ghost predicate WasCollected<E>(c: Cache<E>, x: E)
    requires c.Valid()
  {
    exists i :: 0 <= i < |c.table| && c.collected[i] && c.table[i] == x
  }

  lemma {:induction false} PlaceLoses<E(!new)>(h: Hash<E>, c: Cache<E>, e: E, lastLoc: int, lastEpoch: bool, depth: nat)
    requires c.Valid()
    ensures var r := Place(h, c, e, lastLoc, lastEpoch, depth);
      && (!r.lostLive ==> WasCollected(c, r.lost))
      && (r.lostLive ==> r.cache.collected == c.collected)
    decreases depth
  {
    if depth > 0 {
      var locs := Locs(h, |c.table|, e);
      var k := FirstWith(locs, c.collected);
      if k == 8 {
        var loc := NextVictim(locs, lastLoc);
        var d := Displace(c, loc, e, lastEpoch);
        PlaceLoses(h, d, c.table[loc], loc, c.epoch[loc], depth - 1);
        var r := Place(h, c, e, lastLoc, lastEpoch, depth);
        if !r.lostLive {
          var i :| 0 <= i < |d.table| && d.collected[i] && d.table[i] == r.lost;
          assert c.collected[i] && c.table[i] == r.lost;
        }
      }
    }
  }

  // ----- Where elements are -----

  /** Every element but the untouched ones sits at one of its own eight slots. */
  ghost predicate AtHome<E(!new)>(h: Hash<E>, c: Cache<E>, default: E)
    requires c.Valid()
  {
    forall i | 0 <= i < |c.table| && (c.table[i] != default || !c.collected[i]) :: i in Locs(h, |c.table|, c.table[i])
  }

  /** No element is stored twice. */
  ghost predicate Unique<E>(table: seq<E>, default: E) {
    forall i, j | 0 <= i < j < |table| && table[i] == table[j] :: table[i] == default
  }

  lemma {:induction false} PlaceKeepsHomes<E(!new)>(h: Hash<E>, c: Cache<E>, e: E, lastLoc: int, lastEpoch: bool,
      depth: nat, default: E)
    requires c.Valid() && AtHome(h, c, default) && Unique(c.table, default) && (e == default || e !in c.table)
    ensures var r := Place(h, c, e, lastLoc, lastEpoch, depth).cache;
      AtHome(h, r, default) && Unique(r.table, default)
    decreases depth
  {
    hide AtHome, Unique;
    if depth > 0 {
      var locs := Locs(h, |c.table|, e);
      var k := FirstWith(locs, c.collected);
      if k < 8 {
        FillKeepsHomes(h, c, locs[k], e, lastEpoch, default);
      } else {
        var loc := NextVictim(locs, lastLoc);
        FillKeepsHomes(h, c, loc, e, lastEpoch, default);
        assert c.collected[loc := false] == c.collected;
        var d := Displace(c, loc, e, lastEpoch);
        assert d == Fill(c, loc, e, lastEpoch);
        Displaced(c.table, loc, e, default);
        PlaceKeepsHomes(h, d, c.table[loc], loc, c.epoch[loc], depth - 1, default);
      }
    }
  }

  lemma FillKeepsHomes<E(!new)>(h: Hash<E>, c: Cache<E>, loc: nat, e: E, flag: bool, default: E)
    requires c.Valid() && AtHome(h, c, default) && Unique(c.table, default) && (e == default || e !in c.table)
    requires loc in Locs(h, |c.table|, e) && loc < |c.table|
    ensures AtHome(h, Fill(c, loc, e, flag), default) && Unique(Fill(c, loc, e, flag).table, default)
  {
  }

  /** The displaced element is in hand and nowhere else. */
  lemma Displaced<E>(table: seq<E>, loc: nat, e: E, default: E)
    requires loc < |table| && Unique(table, default) && (e == default || e !in table)
    ensures table[loc] == default || table[loc] !in table[loc := e]
  {
  }

  lemma EpochCheckKeepsHomes<E(!new)>(h: Hash<E>, c: Cache<E>, default: E)
    requires c.Valid() && AtHome(h, c, default)
    ensures AtHome(h, EpochCheck(c), default)
  {
  }

  /** An element in the table is found, since it can only be at one of its slots. */
  lemma FoundIff<E(!new)>(h: Hash<E>, c: Cache<E>, e: E, default: E)
    requires c.Valid() && AtHome(h, c, default) && e != default
    ensures FirstEqual(Locs(h, |c.table|, e), c.table, e) < 8 <==> e in c.table
  {
    var locs := Locs(h, |c.table|, e);
    if e in c.table {
      var i :| 0 <= i < |c.table| && c.table[i] == e;
      assert i in locs;
      var j :| 0 <= j < 8 && locs[j] == i;
    }
  }

  lemma InsertKeepsHomes<E(!new)>(h: Hash<E>, c: Cache<E>, e: E, default: E)
    requires c.Valid() && AtHome(h, c, default) && Unique(c.table, default)
    ensures AtHome(h, Insert(h, c, e), default) && Unique(Insert(h, c, e).table, default)
  {
    EpochCheckKeepsHomes(h, c, default);
    var d := EpochCheck(c);
    var locs := Locs(h, |c.table|, e);
    var k := FirstEqual(locs, d.table, e);
    if k < 8 {
      assert d.table[locs[k] := e] == d.table;
    } else {
      if e != default { FoundIff(h, d, e, default); }
      PlaceKeepsHomes(h, d, e, -1, true, d.depthLimit, default);
    }
  }

  /**
    What an insertion does to the contents: nothing if the element is there; otherwise the
    element joins and exactly one leaves, which was live only if every slot tried was.
  */
  lemma InsertOutcome<E(!new)>(h: Hash<E>, c: Cache<E>, e: E, default: E)
    requires c.Valid() && AtHome(h, c, default) && Unique(c.table, default) && e != default
    ensures e in c.table ==> Insert(h, c, e).table == c.table
    ensures e !in c.table ==>
      var p := Place(h, EpochCheck(c), e, -1, true, c.depthLimit);
      && Insert(h, c, e) == p.cache
      && multiset(p.cache.table) + multiset{p.lost} == multiset(c.table) + multiset{e}
      && (!p.lostLive ==> WasCollected(EpochCheck(c), p.lost))
      && (p.lostLive ==> p.cache.collected == EpochCheck(c).collected)
  {
    EpochCheckKeepsHomes(h, c, default);
    var d := EpochCheck(c);
    FoundIff(h, d, e, default);
    var k := FirstEqual(Locs(h, |c.table|, e), d.table, e);
    if k < 8 {
      assert d.table[Locs(h, |c.table|, e)[k] := e] == d.table;
    } else {
      PlaceMultiset(h, d, e, -1, true, d.depthLimit);
      PlaceLoses(h, d, e, -1, true, d.depthLimit);
    }
  }

  /** contains answers exactly whether the element is stored, collectable or not. */
  lemma ContainsIff<E(!new)>(h: Hash<E>, c: Cache<E>, e: E, erase: bool, default: E)
    requires c.Valid() && AtHome(h, c, default) && e != default
    ensures Contains(h, c, e, erase).1 <==> e in c.table
    ensures AtHome(h, Contains(h, c, e, erase).0, default)
    ensures forall again :: Contains(h, Contains(h, c, e, erase).0, e, again).1 == Contains(h, c, e, erase).1
  {
    FoundIff(h, c, e, default);
  }

  // ----- Runs -----

  datatype Op<E> = OpInsert(e: E) | OpContains(e: E, erase: bool)

  ghost predicate Inv<E(!new)>(h: Hash<E>, c: Cache<E>, default: E) {
    c.Valid() && Bounded(c) && AtHome(h, c, default) && Unique(c.table, default)
  }

  /**
    Any run of insertions and lookups after setup. Two epochs and the slack of the heuristic
    bound the slots in use: 95.625% of the table, unless an epoch has fewer than 16 elements.
  */
  ghost function Run<E(!new)>(h: Hash<E>, newSize: nat, depthLimit: nat, default: E, ops: seq<Op<E>>): (c: Cache<E>)
    requires newSize < TWO32
    ensures Inv(h, c, default) && |c.table| == Max(2, newSize)
    ensures c.epochSize == Setup(newSize, default, depthLimit).epochSize
    ensures |Live(c.collected)| <= 2 * EpochBound(c.epochSize)
    ensures c.epochSize >= 16 ==> 160 * |Live(c.collected)| <= 153 * |c.table|
    decreases |ops|
  {
    if ops == [] then
      SetupInv(h, newSize, depthLimit, default);
      var c := Setup(newSize, default, depthLimit);
      LiveBound(c); LoadBound(newSize, default, depthLimit); c
    else
      var before := Run(h, newSize, depthLimit, default, ops[..|ops| - 1]);
      LoadBound(newSize, default, depthLimit);
      match ops[|ops| - 1]
      case OpInsert(e) =>
        InsertBounded(h, before, e);
        InsertKeepsHomes(h, before, e, default);
        var c := Insert(h, before, e);
        LiveBound(c); c
      case OpContains(e, erase) =>
        ContainsBounded(h, before, e, erase);
        ContainsKeepsHomes(h, before, e, erase, default);
        var c := Contains(h, before, e, erase).0;
        LiveBound(c); c
  }

  /** Two epochs of the size setup chooses, against the size of the table. */
  lemma LoadBound<E>(newSize: nat, default: E, depthLimit: nat)
    ensures var c := Setup(newSize, default, depthLimit);
      c.epochSize >= 16 ==> 160 * (2 * EpochBound(c.epochSize)) <= 153 * |c.table|
  {
  }

  lemma ContainsKeepsHomes<E(!new)>(h: Hash<E>, c: Cache<E>, e: E, erase: bool, default: E)
    requires c.Valid() && AtHome(h, c, default)
    ensures AtHome(h, Contains(h, c, e, erase).0, default)
  {
  }

  lemma SetupInv<E(!new)>(h: Hash<E>, newSize: nat, depthLimit: nat, default: E)
    requires newSize < TWO32
    ensures Inv(h, Setup(newSize, default, depthLimit), default)
  {
    var c := Setup(newSize, default, depthLimit);
    assert Current(c.collected, c.epoch) == {} && Previous(c.collected, c.epoch) == {};
  }

  /** The first displacement goes to the second of the eight slots: the search for no slot ends past the last. */
  lemma FirstVictim(locs: seq<nat>)
    requires |locs| == 8
    ensures NextVictim(locs, -1) == locs[1]
  {
    NotFound(locs);
  }

  lemma {:induction false} NotFound(locs: seq<nat>)
    ensures FirstIndex(locs, -1) == |locs|
    decreases |locs|
  {
    if locs != [] { NotFound(locs[1..]); }
  }
}
