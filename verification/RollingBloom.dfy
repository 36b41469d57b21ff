/**
  The rolling bloom filter.

  A cell holds the generation, 1 to 3, in which it was last touched, or 0. The object keeps
  the two bits of a cell in two words. Hashing is left open.
*/
module RollingBloom {

  type Key = seq<nat>

  /** pairs is the number of word pairs; the floating-point formula that chooses it is left open. */
  datatype Config = Config(pairs: nat, perGeneration: nat, hashFuncs: nat, hash: (nat, Key) -> nat)

  datatype Filter = Filter(cells: seq<nat>, entries: nat, generation: nat)

  ghost predicate Sound(cfg: Config) {
    cfg.pairs > 0 && cfg.perGeneration > 0
  }

  function Hash(cfg: Config, n: nat, key: Key): (h: nat)
    ensures h < 0x1_0000_0000
  {
    cfg.hash(n, key) % 0x1_0000_0000
  }

  function FastMod(x: nat, n: nat): nat {
    x * n / 0x1_0000_0000
  }

  /** The multiplication replaces a remainder: the result stays below n. */
  lemma FastModBelow(x: nat, n: nat)
    requires x < 0x1_0000_0000 && n > 0
    ensures FastMod(x, n) < n
  {
    assert (0x1_0000_0000 - x) * n > 0;
    assert x * n < 0x1_0000_0000 * n;
  }

  /** The cell of a hash: its word pair from the upper bits, its place in the word from the lower. */
  function CellOf(cfg: Config, n: nat, key: Key): (c: nat)
    requires cfg.pairs > 0
    ensures c < 64 * cfg.pairs
  {
    var h := Hash(cfg, n, key);
    FastModBelow(h, 2 * cfg.pairs);
    FastMod(h, 2 * cfg.pairs) / 2 * 64 + h % 64
  }

  /** No cell is wasted: every place in every word pair is the cell of some hash. */
  lemma EveryCellUsed(pairs: nat, c: nat) returns (h: nat)
    requires 0 < pairs <= 0x200_0000 && c < 64 * pairs
    ensures h < 0x1_0000_0000
    ensures forall cfg: Config, n: nat, key: Key | cfg.pairs == pairs && Hash(cfg, n, key) == h ::
      CellOf(cfg, n, key) == c
  {
    var k, j := c / 64, c % 64;
    h := HashFor(pairs, k, j);
  }

  lemma HashFor(pairs: nat, k: nat, j: nat) returns (h: nat)
    requires 0 < pairs <= 0x200_0000 && k < pairs && j < 64
    ensures h < 0x1_0000_0000 && FastMod(h, 2 * pairs) / 2 == k && h % 64 == j
  {
    hide FastMod;
    var q := k * 0x1_0000_0000 / pairs;
    var d := (j + 64 - (q + 1) % 64) % 64;
    h := q + 1 + d;
    Residue(q + 1, j);
    InPair(pairs, k, q, d);
    PairFor(h, pairs, k);
  }

  lemma PairFor(h: nat, pairs: nat, k: nat)
    requires k * 0x1_0000_0000 <= h * pairs < (k + 1) * 0x1_0000_0000
    ensures FastMod(h, 2 * pairs) / 2 == k
  {
    TwiceOver(h * pairs, k);
    assert h * (2 * pairs) == 2 * (h * pairs);
  }

  /** The sixty-four hashes after the start of a pair's share all belong to it. */
  lemma InPair(pairs: nat, k: nat, q: nat, d: nat)
    requires 0 < pairs <= 0x200_0000 && k < pairs && q == k * 0x1_0000_0000 / pairs && d < 64
    ensures k * 0x1_0000_0000 <= (q + 1 + d) * pairs < (k + 1) * 0x1_0000_0000 && q + 1 + d < 0x1_0000_0000
  {
    Quotient(k * 0x1_0000_0000, pairs);
    Spread(q, d, pairs);
    SmallFactor(q + 1 + d, 0x1_0000_0000, pairs);
  }

  lemma Quotient(m: nat, p: nat)
    requires p > 0
    ensures m / p * p <= m < m / p * p + p
  {
    assert m == m / p * p + m % p;
  }

  lemma Spread(q: nat, d: nat, p: nat)
    requires d < 64
    ensures q * p + p <= (q + 1 + d) * p <= q * p + 64 * p
  {
    assert (q + 1 + d) * p == q * p + p + d * p;
    assert 0 <= d * p <= 63 * p;
  }

  lemma SmallFactor(x: nat, n: nat, p: nat)
    ensures x * p < n * p ==> x < n
  {
    if x >= n { assert (x - n) * p >= 0; }
  }

  lemma Residue(start: nat, j: nat)
    requires j < 64
    ensures (start + (j + 64 - start % 64) % 64) % 64 == j
  {
  }

  lemma TwiceOver(a: nat, k: nat)
    requires k * 0x1_0000_0000 <= a < (k + 1) * 0x1_0000_0000
    ensures 2 * a / 0x1_0000_0000 / 2 == k
  {
  }

  function Wipe(cells: seq<nat>, g: nat): (r: seq<nat>)
    ensures |r| == |cells|
  {
    seq(|cells|, i requires 0 <= i < |cells| => if cells[i] == g then 0 else cells[i])
  }

  /** The cells of the first n hashes marked with a generation. */
  function Mark(cfg: Config, cells: seq<nat>, key: Key, g: nat, n: nat): (r: seq<nat>)
    requires cfg.pairs > 0 && |cells| == 64 * cfg.pairs
    ensures |r| == |cells|
    decreases n
  {
    if n == 0 then cells else Mark(cfg, cells, key, g, n - 1)[CellOf(cfg, n - 1, key) := g]
  }

  function Next(g: nat): nat {
    if g + 1 == 4 then 1 else g + 1
  }

  /** The start of a new generation, when the current one is full. */
  function Roll(cfg: Config, f: Filter): (r: Filter)
    ensures |r.cells| == |f.cells|
  {
    if f.entries == cfg.perGeneration then Filter(Wipe(f.cells, Next(f.generation)), 0, Next(f.generation)) else f
  }

  function Insert(cfg: Config, f: Filter, key: Key): (r: Filter)
    requires cfg.pairs > 0 && |f.cells| == 64 * cfg.pairs
    ensures |r.cells| == |f.cells|
  {
    var rolled := Roll(cfg, f);
    Filter(Mark(cfg, rolled.cells, key, rolled.generation, cfg.hashFuncs), rolled.entries + 1, rolled.generation)
  }

  predicate Contains(cfg: Config, f: Filter, key: Key)
    requires cfg.pairs > 0 && |f.cells| == 64 * cfg.pairs
  {
    forall n | 0 <= n < cfg.hashFuncs :: f.cells[CellOf(cfg, n, key)] != 0
  }

  function Reset(cfg: Config): Filter {
    Filter(seq(64 * cfg.pairs, _ => 0), 0, 1)
  }

  /** The filter after the keys were inserted in order. */
  function Run(cfg: Config, keys: seq<Key>): (f: Filter)
    requires cfg.pairs > 0
    ensures |f.cells| == 64 * cfg.pairs
    decreases |keys|
  {
    if keys == [] then Reset(cfg) else Insert(cfg, Run(cfg, keys[..|keys| - 1]), keys[|keys| - 1])
  }

  // ----- When a cell was last touched -----

  predicate Touches(cfg: Config, key: Key, c: nat, n: nat)
    requires cfg.pairs > 0
  {
    exists m | 0 <= m < n :: CellOf(cfg, m, key) == c
  }

  lemma {:induction false} MarkAt(cfg: Config, cells: seq<nat>, key: Key, g: nat, n: nat, c: nat)
    requires cfg.pairs > 0 && |cells| == 64 * cfg.pairs && c < |cells|
    ensures Mark(cfg, cells, key, g, n)[c] == if Touches(cfg, key, c, n) then g else cells[c]
    decreases n
  {
    if n > 0 {
      MarkAt(cfg, cells, key, g, n - 1, c);
      if CellOf(cfg, n - 1, key) == c {
        assert Touches(cfg, key, c, n);
      } else {
        assert Touches(cfg, key, c, n) <==> Touches(cfg, key, c, n - 1);
      }
    }
  }

  /** The number of the last key, counted from 1, that touched a cell, or 0. */
  function Last(cfg: Config, keys: seq<Key>, c: nat): (i: nat)
    requires cfg.pairs > 0
    ensures i <= |keys|
    decreases |keys|
  {
    if keys == [] then 0
    else if Touches(cfg, keys[|keys| - 1], c, cfg.hashFuncs) then |keys|
    else Last(cfg, keys[..|keys| - 1], c)
  }

  /** How many keys the generation of the k-th key holds, that one included. */
  function Entries(cfg: Config, k: nat): nat {
    if k == 0 then 0 else if Entries(cfg, k - 1) == cfg.perGeneration then 1 else Entries(cfg, k - 1) + 1
  }

  /** The generation of the k-th key, counted from 0 and without end. */
  function Epoch(cfg: Config, k: nat): nat {
    if k == 0 then 0 else Epoch(cfg, k - 1) + if Entries(cfg, k - 1) == cfg.perGeneration then 1 else 0
  }

  lemma {:induction false} EpochRises(cfg: Config, i: nat, k: nat)
    requires i <= k
    ensures Epoch(cfg, i) <= Epoch(cfg, k)
    decreases k
  {
    if i < k { EpochRises(cfg, i, k - 1); }
  }

  lemma {:induction false} EpochCounts(cfg: Config, k: nat)
    requires cfg.perGeneration > 0
    ensures k == Epoch(cfg, k) * cfg.perGeneration + Entries(cfg, k)
    ensures Entries(cfg, k) <= cfg.perGeneration && (k > 0 ==> Entries(cfg, k) > 0)
  {
    if k > 0 { EpochCounts(cfg, k - 1); }
  }

  /** What a cell holds: the generation of its last key, as long as that is one of the last three. */
  ghost predicate CellRight(cfg: Config, keys: seq<Key>, c: nat, value: nat, epoch: nat)
    requires cfg.pairs > 0
  {
    var last := Last(cfg, keys, c);
    value == if last > 0 && Epoch(cfg, last) + 2 >= epoch then Epoch(cfg, last) % 3 + 1 else 0
  }

  lemma {:induction false} GenerationRight(cfg: Config, keys: seq<Key>)
    requires Sound(cfg)
    ensures var f := Run(cfg, keys);
      f.generation == Epoch(cfg, |keys|) % 3 + 1 && f.entries == Entries(cfg, |keys|)
    decreases |keys|
  {
    hide Mark, Wipe;
    if keys != [] { GenerationRight(cfg, keys[..|keys| - 1]); }
  }

  /** Wiping the cells of the generation to be reused forgets exactly what is three generations old. */
  lemma WipeRight(cfg: Config, keys: seq<Key>, c: nat, value: nat, epoch: nat)
    requires cfg.pairs > 0 && CellRight(cfg, keys, c, value, epoch) && Epoch(cfg, |keys|) == epoch
    ensures CellRight(cfg, keys, c, if value == (epoch + 1) % 3 + 1 then 0 else value, epoch + 1)
  {
    EpochRises(cfg, Last(cfg, keys, c), |keys|);
  }

  /**
    Main theorem. In every run a cell is not zero exactly when it was last touched in the
    current or one of the two preceding generations, and then it holds that generation.
  */
  lemma {:induction false} CellMeaning(cfg: Config, keys: seq<Key>, c: nat)
    requires Sound(cfg) && c < 64 * cfg.pairs
    ensures CellRight(cfg, keys, c, Run(cfg, keys).cells[c], Epoch(cfg, |keys|))
    decreases |keys|
  {
    hide CellOf, Touches, Mark;
    if keys != [] {
      var n := |keys| - 1;
      var before, key := keys[..n], keys[n];
      CellMeaning(cfg, before, c);
      GenerationRight(cfg, before);
      var f := Run(cfg, before);
      var rolled := Roll(cfg, f);
      if f.entries == cfg.perGeneration {
        WipeRight(cfg, before, c, f.cells[c], Epoch(cfg, n));
      }
      assert CellRight(cfg, before, c, rolled.cells[c], Epoch(cfg, n + 1));
      MarkAt(cfg, rolled.cells, key, rolled.generation, cfg.hashFuncs, c);
      GenerationRight(cfg, keys);
    }
  }

  lemma {:induction false} LastAtLeast(cfg: Config, keys: seq<Key>, i: nat, c: nat)
    requires cfg.pairs > 0 && i < |keys| && Touches(cfg, keys[i], c, cfg.hashFuncs)
    ensures Last(cfg, keys, c) > i
    decreases |keys|
  {
    if i < |keys| - 1 && !Touches(cfg, keys[|keys| - 1], c, cfg.hashFuncs) {
      LastAtLeast(cfg, keys[..|keys| - 1], i, c);
    }
  }

  /** A key is still within three generations when fewer than two generations of keys came after it. */
  lemma RecentEpoch(cfg: Config, i: nat, k: nat)
    requires cfg.perGeneration > 0 && 0 < i <= k && k - i < 2 * cfg.perGeneration
    ensures Epoch(cfg, i) + 2 >= Epoch(cfg, k)
  {
    EpochCounts(cfg, i);
    EpochCounts(cfg, k);
    ThreeApart(Epoch(cfg, i), Epoch(cfg, k), cfg.perGeneration);
  }

  lemma ThreeApart(low: nat, high: nat, length: nat)
    ensures high >= low + 3 ==> high * length >= low * length + 3 * length
  {
    if high >= low + 3 {
      assert (high - low - 3) * length >= 0;
    }
  }

  /** Every one of the last nElements keys is found: a generation holds half of them, rounded up. */
  lemma RecentContained(cfg: Config, keys: seq<Key>, elements: nat, i: nat)
    requires Sound(cfg) && cfg.perGeneration == (elements + 1) / 2
    requires i < |keys| && |keys| - i <= elements
    ensures Contains(cfg, Run(cfg, keys), keys[i])
  {
    forall n | 0 <= n < cfg.hashFuncs ensures Run(cfg, keys).cells[CellOf(cfg, n, keys[i])] != 0 {
      var c := CellOf(cfg, n, keys[i]);
      CellMeaning(cfg, keys, c);
      assert Touches(cfg, keys[i], c, cfg.hashFuncs);
      LastAtLeast(cfg, keys, i, c);
      RecentEpoch(cfg, Last(cfg, keys, c), |keys|);
    }
  }

  /** A key is reported exactly when each of its cells was touched in the last three generations. */
  lemma ContainsIff(cfg: Config, keys: seq<Key>, key: Key)
    requires Sound(cfg)
    ensures Contains(cfg, Run(cfg, keys), key) <==>
      forall n | 0 <= n < cfg.hashFuncs ::
        var last := Last(cfg, keys, CellOf(cfg, n, key));
        last > 0 && Epoch(cfg, last) + 2 >= Epoch(cfg, |keys|)
  {
    forall n | 0 <= n < cfg.hashFuncs
      ensures Run(cfg, keys).cells[CellOf(cfg, n, key)] != 0 <==>
        var last := Last(cfg, keys, CellOf(cfg, n, key)); last > 0 && Epoch(cfg, last) + 2 >= Epoch(cfg, |keys|)
    {
      CellMeaning(cfg, keys, CellOf(cfg, n, key));
    }
  }
}
