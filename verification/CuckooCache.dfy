/** The cuckoo cache as an object over arrays and bit-packed flags. */
module CuckooCache {
  import opened CuckooSpec

  /** The bit of a byte that stands for a flag. */
  function Mask(k: nat): bv8
    requires k < 8
  {
    (1 as bv8) << k
  }

  predicate HasBit(m: bv8, k: nat)
    requires k < 8
  {
    m & Mask(k) != 0
  }

  lemma SetBit(m: bv8, k: nat, j: nat)
    requires k < 8 && j < 8
    ensures HasBit(m | Mask(k), j) <==> j == k || HasBit(m, j)
  {
  }

  lemma ClearBit(m: bv8, k: nat, j: nat)
    requires k < 8 && j < 8
    ensures HasBit(m & !Mask(k), j) <==> j != k && HasBit(m, j)
  {
  }

  lemma FullByte(j: nat)
    requires j < 8
    ensures HasBit(0xFF, j)
  {
  }

  /** Flags packed eight to a byte. */
  class BitPackedFlags {
    const mem: array<bv8>

    ghost function Size(): nat {
      8 * mem.Length
    }

    /** Whether the flag at an index is set. */
    predicate At(s: nat)
      requires s < Size()
      reads mem
    {
      HasBit(mem[s / 8], s % 8)
    }

    constructor (size: nat)
      ensures fresh(mem) && size <= Size()
      ensures forall s: nat | s < Size() :: At(s)
    {
      mem := new bv8[(size + 7) / 8](_ => 0xFF);
      new;
      forall s: nat | s < Size() ensures At(s) { FullByte(s % 8); }
    }

    method Set(s: nat)
      requires s < Size()
      modifies mem
      ensures forall t: nat | t < Size() :: At(t) == (t == s || old(At(t)))
    {
      ghost var byte := mem[s / 8];
      mem[s / 8] := mem[s / 8] | Mask(s % 8);
      forall t: nat | t < Size() ensures At(t) == (t == s || old(At(t))) { SetBit(byte, s % 8, t % 8); }
    }

    method Unset(s: nat)
      requires s < Size()
      modifies mem
      ensures forall t: nat | t < Size() :: At(t) == (t != s && old(At(t)))
    {
      ghost var byte := mem[s / 8];
      mem[s / 8] := mem[s / 8] & !Mask(s % 8);
      forall t: nat | t < Size() ensures At(t) == (t != s && old(At(t))) { ClearBit(byte, s % 8, t % 8); }
    }

    method IsSet(s: nat) returns (b: bool)
      requires s < Size()
      ensures b == At(s)
    {
      b := Mask(s % 8) & mem[s / 8] != 0;
    }
  }

  /** One turn of the displacement loop. */
  lemma PlaceStep<E(!new)>(h: Hash<E>, c: Cache<E>, e: E, lastLoc: int, lastEpoch: bool, depth: nat)
    requires c.Valid()
    ensures var locs := Locs(h, |c.table|, e);
      var k := FirstWith(locs, c.collected);
      var loc := NextVictim(locs, lastLoc);
      Place(h, c, e, lastLoc, lastEpoch, depth).cache ==
      if depth == 0 then c
      else if k < 8 then Fill(c, locs[k], e, lastEpoch)
      else Place(h, Displace(c, loc, e, lastEpoch), c.table[loc], loc, c.epoch[loc], depth - 1).cache
  {
  }

  ghost function Below(all: set<nat>, i: nat): set<nat> {
    set k | k in all && k < i
  }

  lemma CountedTo(all: set<nat>, i: nat)
    ensures |Below(all, i + 1)| == |Below(all, i)| + if i in all then 1 else 0
    ensures |Below(all, 0)| == 0
  {
    assert Below(all, i + 1) == if i in all then Below(all, i) + {i} else Below(all, i);
    assert Below(all, 0) == {};
  }

  lemma CurrentAt(collected: seq<bool>, epoch: seq<bool>, i: nat)
    requires |collected| == |epoch| && i < |epoch|
    ensures i in Current(collected, epoch) <==> epoch[i] && !collected[i]
  {
  }

  lemma CurrentInTable(collected: seq<bool>, epoch: seq<bool>)
    requires |collected| == |epoch|
    ensures forall i | i in Current(collected, epoch) :: i < |epoch|
  {
  }

  class CuckooTable<E(==, !new)> {
    const h: Hash<E>
    const table: array<E>
    const flags: BitPackedFlags
    const epoch: array<bool>
    const epochSize: nat
    const depthLimit: nat
    var counter: nat

    ghost predicate Valid() {
      && 0 < table.Length == epoch.Length < TWO32 && table.Length <= flags.Size()
      && table as object != epoch && table as object != flags.mem && epoch as object != flags.mem
    }

    ghost function Collected(): (c: seq<bool>)
      requires Valid()
      reads flags.mem
      ensures |c| == table.Length && forall i: nat | i < |c| :: c[i] == flags.At(i)
    {
      seq(table.Length, i requires 0 <= i < table.Length reads flags.mem => flags.At(i))
    }

    ghost function V(): (c: Cache<E>)
      requires Valid()
      reads this, table, epoch, flags.mem
      ensures c.Valid()
    {
      Cache(table[..], Collected(), epoch[..], counter, epochSize, depthLimit)
    }

    constructor (hash: Hash<E>, newSize: nat, default: E, depth: nat)
      requires newSize < TWO32
      ensures Valid() && h == hash && V() == Setup(newSize, default, depth)
      ensures fresh(table) && fresh(epoch) && fresh(flags.mem)
    {
      var size: nat := if newSize < 2 then 2 else newSize;
      h := hash;
      table := new E[size](_ => default);
      flags := new BitPackedFlags(size);
      epoch := new bool[size](_ => false);
      epochSize := Max(1, 45 * size % TWO32 / 100);
      counter := Max(1, 45 * size % TWO32 / 100);
      depthLimit := depth;
      new;
      assert table[..] == Setup(newSize, default, depth).table;
      assert Collected() == Setup(newSize, default, depth).collected;
      assert epoch[..] == Setup(newSize, default, depth).epoch;
    }

    /** The scan for elements of the current epoch that have not been erased. */
    method CountUnused() returns (n: nat)
      requires Valid()
      ensures n == |Current(Collected(), epoch[..])|
    {
      ghost var all := Current(Collected(), epoch[..]);
      hide Current;
      n := 0;
      var i := 0;
      while i < table.Length
        invariant i <= table.Length && n == |Below(all, i)|
      {
        CountedTo(all, i);
        var collectable := flags.IsSet(i);
        CurrentAt(Collected(), epoch[..], i);
        if epoch[i] && !collectable { n := n + 1; }
        i := i + 1;
      }
      CurrentInTable(Collected(), epoch[..]);
      assert Below(all, i) == all;
    }

    /** Ageing: the epoch before becomes collectable and the current one takes its place. */
    method Age()
      requires Valid()
      modifies epoch, flags.mem
      ensures epoch[..] == seq(table.Length, i => false)
      ensures forall i: nat | i < table.Length :: Collected()[i] == (old(Collected()[i]) || !old(epoch[i]))
    {
      var i := 0;
      while i < table.Length
        invariant i <= table.Length
        invariant forall k | 0 <= k < table.Length :: epoch[k] == if k < i then false else old(epoch[k])
        invariant forall k: nat | k < table.Length :: flags.At(k) == (old(flags.At(k)) || (k < i && !old(epoch[k])))
      {
        if epoch[i] {
          epoch[i] := false;
        } else {
          flags.Set(i);
        }
        i := i + 1;
      }
    }

    method EpochCheck()
      requires Valid()
      modifies this, epoch, flags.mem
      ensures V() == CuckooSpec.EpochCheck(old(V()))
    {
      if counter != 0 {
        counter := counter - 1;
        return;
      }
      var unused := CountUnused();
      if unused >= epochSize {
        Age();
        counter := epochSize;
        assert Collected() == CuckooSpec.EpochCheck(old(V())).collected;
      } else {
        counter := Max(1, Max(epochSize / 16, epochSize - unused));
      }
    }

    /** The first slot that holds the element, among eight. */
    method FindElement(locs: seq<nat>, e: E) returns (k: nat)
      requires Valid() && |locs| == 8 && forall j | 0 <= j < 8 :: locs[j] < table.Length
      ensures k == FirstEqual(locs, table[..], e)
    {
      k := 0;
      while k < 8 && table[locs[k]] != e
        invariant k <= 8
        invariant FirstEqual(locs, table[..], e) == k + FirstEqual(locs[k..], table[..], e)
      {
        k := k + 1;
      }
    }

    /** The first slot that is collectable, among eight. */
    method FindCollectable(locs: seq<nat>) returns (k: nat)
      requires Valid() && |locs| == 8 && forall j | 0 <= j < 8 :: locs[j] < table.Length
      ensures k == FirstWith(locs, Collected())
    {
      k := 0;
      while k < 8
        invariant k <= 8
        invariant FirstWith(locs, Collected()) == k + FirstWith(locs[k..], Collected())
      {
        var collectable := flags.IsSet(locs[k]);
        if collectable { return; }
        k := k + 1;
      }
    }

    /** An element put into a slot and kept. */
    method Keep(loc: nat, e: E, flag: bool)
      requires Valid() && loc < table.Length
      modifies table, epoch, flags.mem
      ensures V() == Fill(old(V()), loc, e, flag)
    {
      table[loc] := e;
      flags.Unset(loc);
      epoch[loc] := flag;
      assert table[..] == old(table[..])[loc := e];
      assert epoch[..] == old(epoch[..])[loc := flag];
      assert Collected() == old(Collected())[loc := false];
    }

    /** The element in hand changes places with the one in a slot, with their epoch flags. */
    method Swap(loc: nat, e: E, flag: bool) returns (e': E, flag': bool)
      requires Valid() && loc < table.Length
      modifies table, epoch
      ensures V() == Displace(old(V()), loc, e, flag) && e' == old(table[loc]) && flag' == old(epoch[loc])
    {
      e', table[loc] := table[loc], e;
      flag', epoch[loc] := epoch[loc], flag;
      assert table[..] == old(table[..])[loc := e];
      assert epoch[..] == old(epoch[..])[loc := flag];
    }

    /** The displacement loop of insert. */
    method PlaceElement(e: E)
      requires Valid()
      modifies table, epoch, flags.mem
      ensures V() == Place(h, old(V()), e, -1, true, depthLimit).cache
    {
      hide Place, Fill, Displace, Locs, FirstWith, NextVictim;
      var hand, lastEpoch := e, true;
      var lastLoc: int := -1;
      var locs := Locs(h, table.Length, e);
      var depth := 0;
      while depth < depthLimit
        invariant depth <= depthLimit && locs == Locs(h, table.Length, hand)
        invariant Place(h, V(), hand, lastLoc, lastEpoch, depthLimit - depth).cache ==
          Place(h, old(V()), e, -1, true, depthLimit).cache
      {
        PlaceStep(h, V(), hand, lastLoc, lastEpoch, depthLimit - depth);
        var k := FindCollectable(locs);
        if k < 8 {
          Keep(locs[k], hand, lastEpoch);
          return;
        }
        var victim := NextVictim(locs, lastLoc);
        hand, lastEpoch := Swap(victim, hand, lastEpoch);
        lastLoc := victim;
        locs := Locs(h, table.Length, hand);
        depth := depth + 1;
      }
      PlaceStep(h, V(), hand, lastLoc, lastEpoch, 0);
    }

    method Insert(e: E)
      requires Valid()
      modifies this, table, epoch, flags.mem
      ensures V() == CuckooSpec.Insert(h, old(V()), e)
    {
      EpochCheck();
      var locs := Locs(h, table.Length, e);
      var k := FindElement(locs, e);
      if k < 8 {
        Keep(locs[k], e, true);
      } else {
        PlaceElement(e);
      }
    }

    method Contains(e: E, erase: bool) returns (found: bool)
      requires Valid()
      modifies flags.mem
      ensures (V(), found) == CuckooSpec.Contains(h, old(V()), e, erase)
    {
      var locs := Locs(h, table.Length, e);
      var k := FindElement(locs, e);
      if k == 8 { return false; }
      if erase {
        flags.Set(locs[k]);
        assert Collected() == old(Collected())[locs[k] := true];
      }
      return true;
    }
  }
}
