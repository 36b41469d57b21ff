/** The filter as it is stored: the two bits of a cell in two words. */
module RollingBloomFilter {
  import opened RollingBloom

  /** A 64-bit word as its bits, the lowest first. */
  type Word = w: seq<bool> | |w| == 64 witness seq(64, _ => false)

  function And(x: Word, y: Word): Word {
    seq(64, k requires 0 <= k < 64 => x[k] && y[k])
  }

  function Or(x: Word, y: Word): Word {
    seq(64, k requires 0 <= k < 64 => x[k] || y[k])
  }

  function Xor(x: Word, y: Word): Word {
    seq(64, k requires 0 <= k < 64 => x[k] != y[k])
  }

  function Not(x: Word): Word {
    seq(64, k requires 0 <= k < 64 => !x[k])
  }

  /** Zero minus a bit: all ones, or none. */
  function Minus(b: bool): Word {
    seq(64, _ => b)
  }

  /** A bit moved up to a place. */
  function Shift(b: bool, place: nat): Word {
    seq(64, k => b && k == place)
  }

  predicate Low(g: nat) {
    g % 2 == 1
  }

  predicate High(g: nat) {
    g / 2 == 1
  }

  function Cell(low: bool, high: bool): nat {
    (if low then 1 else 0) + if high then 2 else 0
  }

  function CellAt(data: seq<Word>, c: nat): nat
    requires c / 64 * 2 + 1 < |data|
  {
    Cell(data[c / 64 * 2][c % 64], data[c / 64 * 2 + 1][c % 64])
  }

  /** The cells that the words hold. */
  function Cells(data: seq<Word>): (cells: seq<nat>)
    requires |data| % 2 == 0
    ensures |cells| == 64 * (|data| / 2)
  {
    seq(64 * (|data| / 2), c requires 0 <= c < 64 * (|data| / 2) => CellAt(data, c))
  }

  /** One word pair with the cells of a generation wiped. */
  function WipePair(p1: Word, p2: Word, g: nat): (Word, Word) {
    var mask := Or(Xor(p1, Minus(Low(g))), Xor(p2, Minus(High(g))));
    (And(p1, mask), And(p2, mask))
  }

  lemma WipePairCell(p1: Word, p2: Word, g: nat, k: nat)
    requires 1 <= g <= 3 && k < 64
    ensures var (q1, q2) := WipePair(p1, p2, g);
      Cell(q1[k], q2[k]) == if Cell(p1[k], p2[k]) == g then 0 else Cell(p1[k], p2[k])
  {
  }

  /** A word with one bit replaced. */
  function Put(x: Word, place: nat, b: bool): Word {
    Or(And(x, Not(Shift(true, place))), Shift(b, place))
  }

  lemma PutBit(x: Word, place: nat, b: bool, k: nat)
    requires k < 64
    ensures Put(x, place, b)[k] == if k == place then b else x[k]
  {
  }

  class CRollingBloomFilter {
    const cfg: Config
    var data: seq<Word>
    var nEntriesThisGeneration: nat
    var nGeneration: nat

    ghost predicate Valid()
      reads this
    {
      Sound(cfg) && |data| == 2 * cfg.pairs && 1 <= nGeneration <= 3
    }

    ghost function V(): Filter
      requires Valid()
      reads this
    {
      Filter(Cells(data), nEntriesThisGeneration, nGeneration)
    }

    constructor (c: Config)
      requires Sound(c)
      ensures Valid() && cfg == c && V() == Reset(c)
    {
      cfg := c;
      data := seq(2 * c.pairs, _ => seq(64, _ => false));
      nEntriesThisGeneration, nGeneration := 0, 1;
    }

    /** The words after the call hold the cells that Insert says. */
    method Insert(key: Key)
      requires Valid()
      modifies this
      ensures Valid() && V() == RollingBloom.Insert(cfg, old(V()), key)
    {
      hide CellOf;
      if nEntriesThisGeneration == cfg.perGeneration {
        nEntriesThisGeneration := 0;
        nGeneration := nGeneration + 1;
        if nGeneration == 4 { nGeneration := 1; }
        WipeGeneration();
      }
      nEntriesThisGeneration := nEntriesThisGeneration + 1;
      MarkKey(key);
    }

    method WipeGeneration()
      requires Valid()
      modifies this`data
      ensures Valid() && Cells(data) == Wipe(old(Cells(data)), nGeneration)
    {
      hide WipePair;
      var words: seq<Word> := data;
      var p := 0;
      while p < |words|
        invariant 0 <= p <= |words| == |data| && p % 2 == 0
        invariant forall q | 0 <= q < |words| / 2 ::
          (words[2 * q], words[2 * q + 1]) ==
          if 2 * q < p then WipePair(data[2 * q], data[2 * q + 1], nGeneration) else (data[2 * q], data[2 * q + 1])
      {
        var pair := WipePair(words[p], words[p + 1], nGeneration);
        assert (words[2 * (p / 2)], words[2 * (p / 2) + 1]) == (data[p], data[p + 1]);
        words := words[p := pair.0][p + 1 := pair.1];
        p := p + 2;
      }
      WipeCells(data, words, nGeneration);
      data := words;
    }

    method MarkKey(key: Key)
      requires Valid()
      modifies this`data
      ensures Valid() && Cells(data) == Mark(cfg, old(Cells(data)), key, nGeneration, cfg.hashFuncs)
    {
      hide CellAt, CellOf;
      var words: seq<Word> := data;
      var n := 0;
      while n < cfg.hashFuncs
        invariant n <= cfg.hashFuncs && |words| == |data|
        invariant Cells(words) == Mark(cfg, Cells(data), key, nGeneration, n)
        modifies {}
      {
        words := MarkOne(cfg, words, n, key, nGeneration);
        n := n + 1;
      }
      data := words;
    }

    static method MarkOne(cfg: Config, words: seq<Word>, n: nat, key: Key, g: nat) returns (marked: seq<Word>)
      requires cfg.pairs > 0 && |words| == 2 * cfg.pairs && 1 <= g <= 3
      ensures |marked| == |words| && Cells(marked) == Cells(words)[CellOf(cfg, n, key) := g]
    {
      hide Put, CellAt, FastMod;
      var h := Hash(cfg, n, key);
      var pos, bit := FastMod(h, |words|), h % 64;
      FastModBelow(h, |words|);
      var pair := pos / 2;
      PutCell(words, pair, bit, g);
      marked := words[2 * pair := Put(words[2 * pair], bit, Low(g))]
                     [2 * pair + 1 := Put(words[2 * pair + 1], bit, High(g))];
    }

    method Contains(key: Key) returns (found: bool)
      requires Valid()
      ensures found == RollingBloom.Contains(cfg, V(), key)
    {
      hide Hash, FastMod;
      var n := 0;
      while n < cfg.hashFuncs
        invariant n <= cfg.hashFuncs
        invariant forall m | 0 <= m < n :: Cells(data)[CellOf(cfg, m, key)] != 0
      {
        var h := Hash(cfg, n, key);
        var pos, bit := FastMod(h, |data|), h % 64;
        FastModBelow(h, |data|);
        CellPlace(pos, bit);
        assert CellOf(cfg, n, key) == pos / 2 * 64 + bit;
        if !Or(data[pos / 2 * 2], data[pos / 2 * 2 + 1])[bit] { return false; }
        n := n + 1;
      }
      return true;
    }

    method ResetAll()
      requires Valid()
      modifies this
      ensures Valid() && V() == Reset(cfg)
    {
      data := seq(|data|, _ => seq(64, _ => false));
      nEntriesThisGeneration, nGeneration := 0, 1;
    }
  }

  lemma CellPlace(pos: nat, bit: nat)
    requires bit < 64
    ensures var c := pos / 2 * 64 + bit; c / 64 == pos / 2 && c % 64 == bit
  {
  }

  lemma WipeCells(data: seq<Word>, words: seq<Word>, g: nat)
    requires |data| % 2 == 0 && |words| == |data| && 1 <= g <= 3
    requires forall q | 0 <= q < |data| / 2 ::
      (words[2 * q], words[2 * q + 1]) == WipePair(data[2 * q], data[2 * q + 1], g)
    ensures Cells(words) == Wipe(Cells(data), g)
  {
    hide WipePair;
    forall c | 0 <= c < 64 * (|data| / 2) ensures Cells(words)[c] == Wipe(Cells(data), g)[c] {
      var q := c / 64;
      WipePairCell(data[2 * q], data[2 * q + 1], g, c % 64);
    }
  }

  lemma PutCell(words: seq<Word>, pair: nat, bit: nat, g: nat)
    requires |words| % 2 == 0 && 2 * pair + 1 < |words| && bit < 64 && 1 <= g <= 3
    ensures Cells(words[2 * pair := Put(words[2 * pair], bit, Low(g))]
                       [2 * pair + 1 := Put(words[2 * pair + 1], bit, High(g))]) ==
            Cells(words)[pair * 64 + bit := g]
  {
    hide Put;
    var after := words[2 * pair := Put(words[2 * pair], bit, Low(g))]
                      [2 * pair + 1 := Put(words[2 * pair + 1], bit, High(g))];
    forall c | 0 <= c < 64 * (|words| / 2) ensures Cells(after)[c] == Cells(words)[pair * 64 + bit := g][c] {
      if c / 64 == pair {
        PutBit(words[2 * pair], bit, Low(g), c % 64);
        PutBit(words[2 * pair + 1], bit, High(g), c % 64);
      }
    }
  }
}
