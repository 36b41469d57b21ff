/**
  The cuckoo cache as a value: a table whose elements each have eight slots, flags that
  mark slots as collectable, and flags that mark elements of the current epoch.
*/
module CuckooSpec {

  const TWO32: nat := 0x1_0000_0000

  /** Eight independent 32-bit hashes of an element. */
  type Hash<!E(!new)> = h: (nat, E) -> nat | forall n: nat, e: E :: h(n, e) < TWO32 witness (n: nat, e: E) => 0

  datatype Cache<E> = Cache(
    table: seq<E>,
    collected: seq<bool>,
    epoch: seq<bool>,
    counter: nat,
    epochSize: nat,
    depthLimit: nat)
  {
    ghost predicate Valid() {
      |table| == |collected| == |epoch| && 0 < |table| < TWO32
    }
  }

  /** One slot of an element: the hash as a fixed-point fraction of the size. */
  function Loc<E(!new)>(h: Hash<E>, size: nat, n: nat, e: E): (loc: nat)
    requires size > 0
    ensures loc < size
  {
    ScaledBelow(h(n, e), size);
    h(n, e) * size / TWO32
  }

  lemma ScaledBelow(x: nat, size: nat)
    requires x < TWO32 && size > 0
    ensures x * size / TWO32 < size
  {
    assert x * size < TWO32 * size;
  }

  function Locs<E(!new)>(h: Hash<E>, size: nat, e: E): (locs: seq<nat>)
    requires size > 0
    ensures |locs| == 8 && forall j | 0 <= j < 8 :: locs[j] < size
  {
    seq(8, n requires 0 <= n < 8 => Loc(h, size, n, e))
  }

  /** The first position at which a predicate holds of the eight slots; 8 if there is none. */
  function FirstWith(locs: seq<nat>, flags: seq<bool>): (k: nat)
    requires forall j | 0 <= j < |locs| :: locs[j] < |flags|
    ensures k <= |locs|
    ensures k < |locs| ==> flags[locs[k]]
    ensures forall j | 0 <= j < k :: !flags[locs[j]]
    decreases |locs|
  {
    if locs == [] || flags[locs[0]] then 0 else 1 + FirstWith(locs[1..], flags)
  }

  function FirstEqual<E(==)>(locs: seq<nat>, table: seq<E>, e: E): (k: nat)
    requires forall j | 0 <= j < |locs| :: locs[j] < |table|
    ensures k <= |locs|
    ensures k < |locs| ==> table[locs[k]] == e
    ensures forall j | 0 <= j < k :: table[locs[j]] != e
    decreases |locs|
  {
    if locs == [] || table[locs[0]] == e then 0 else 1 + FirstEqual(locs[1..], table, e)
  }

  /** Where an index occurs first among the slots; 8 if it does not. */
  function FirstIndex(locs: seq<nat>, x: int): (k: nat)
    ensures k <= |locs|
  {
    if locs == [] || locs[0] == x then 0 else 1 + FirstIndex(locs[1..], x)
  }

  /** The slot to displace next: the one after the last one looked at, or the second. */
  function NextVictim(locs: seq<nat>, lastLoc: int): (loc: nat)
    requires |locs| == 8
    ensures loc in locs && exists k :: 0 <= k < 8 && loc == locs[k]
  {
    locs[(1 + FirstIndex(locs, lastLoc)) % 8]
  }

  // ----- Counting -----

  /** Elements of the current epoch that have not been erased. */
  ghost function Current(collected: seq<bool>, epoch: seq<bool>): set<nat>
    requires |collected| == |epoch|
  {
    set i: nat | i < |epoch| && epoch[i] && !collected[i]
  }

  /** Elements of the epoch before that have not been erased. */
  ghost function Previous(collected: seq<bool>, epoch: seq<bool>): set<nat>
    requires |collected| == |epoch|
  {
    set i: nat | i < |epoch| && !epoch[i] && !collected[i]
  }

  function Max(a: int, b: int): int { if a < b then b else a }

  /** How many elements an epoch may hold before it is aged. */
  function EpochBound(epochSize: nat): nat {
    epochSize + Max(1, epochSize / 16)
  }

  // ----- Operations -----

  ghost function EpochCheck<E>(c: Cache<E>): (r: Cache<E>)
    requires c.Valid()
    ensures r.Valid() && r.table == c.table && r.depthLimit == c.depthLimit && r.epochSize == c.epochSize
  {
    if c.counter != 0 then c.(counter := c.counter - 1) else
    var unused := |Current(c.collected, c.epoch)|;
    if unused >= c.epochSize then
      c.(epoch := seq(|c.epoch|, i => false),
         collected := seq(|c.epoch|, i requires 0 <= i < |c.epoch| => c.collected[i] || !c.epoch[i]),
         counter := c.epochSize)
    else
      c.(counter := Max(1, Max(c.epochSize / 16, c.epochSize - unused)))
  }

  /** A slot taken over by an element. */
  function Fill<E>(c: Cache<E>, loc: nat, e: E, epoch: bool): (r: Cache<E>)
    requires c.Valid() && loc < |c.table|
    ensures r.Valid() && |r.table| == |c.table|
  {
    c.(table := c.table[loc := e], collected := c.collected[loc := false], epoch := c.epoch[loc := epoch])
  }

  /** A slot whose element is displaced; the new element is kept as the old one was. */
  function Displace<E>(c: Cache<E>, loc: nat, e: E, epoch: bool): (r: Cache<E>)
    requires c.Valid() && loc < |c.table|
    ensures r.Valid() && |r.table| == |c.table|
  {
    c.(table := c.table[loc := e], epoch := c.epoch[loc := epoch])
  }

  /** What an insertion ends with: the element that left the table and whether it was live. */
  datatype Placed<E> = Placed(cache: Cache<E>, lost: E, lostLive: bool)

  /** The displacement loop, with the element in hand and its epoch flag. */
  function Place<E(==, !new)>(h: Hash<E>, c: Cache<E>, e: E, lastLoc: int, lastEpoch: bool, depth: nat): (r: Placed<E>)
    requires c.Valid()
    ensures r.cache.Valid() && |r.cache.table| == |c.table|
    decreases depth
  {
    if depth == 0 then Placed(c, e, true) else
    var locs := Locs(h, |c.table|, e);
    var k := FirstWith(locs, c.collected);
    if k < 8 then Placed(Fill(c, locs[k], e, lastEpoch), c.table[locs[k]], false) else
    var loc := NextVictim(locs, lastLoc);
    Place(h, Displace(c, loc, e, lastEpoch), c.table[loc], loc, c.epoch[loc], depth - 1)
  }

  ghost function Insert<E(!new)>(h: Hash<E>, c: Cache<E>, e: E): (r: Cache<E>)
    requires c.Valid()
    ensures r.Valid() && |r.table| == |c.table|
  {
    var d := EpochCheck(c);
    var locs := Locs(h, |c.table|, e);
    var k := FirstEqual(locs, d.table, e);
    if k < 8 then Fill(d, locs[k], e, true) else Place(h, d, e, -1, true, d.depthLimit).cache
  }

  function Contains<E(==, !new)>(h: Hash<E>, c: Cache<E>, e: E, erase: bool): (r: (Cache<E>, bool))
    requires c.Valid()
    ensures r.0.Valid() && r.0.table == c.table
  {
    var locs := Locs(h, |c.table|, e);
    var k := FirstEqual(locs, c.table, e);
    if k == 8 then (c, false)
    else if erase then (c.(collected := c.collected[locs[k] := true]), true) else (c, true)
  }

  /** setup: everything collected, a whole epoch to go; 45 * size wraps at 32 bits. */
  function Setup<E>(newSize: nat, default: E, depthLimit: nat): Cache<E>
  {
    var size := Max(2, newSize);
    var epochSize := Max(1, 45 * size % TWO32 / 100);
    Cache(seq(size, _ => default), seq(size, _ => true), seq(size, _ => false), epochSize, epochSize, depthLimit)
  }
}
