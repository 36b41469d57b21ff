/**
  The checksum of Bech32 (BIP 173), Bech32m (BIP 350) and their Blech32 relatives.

  The state packs the coefficients of a polynomial over GF(32), five bits each: six of them
  for Bech32 and twelve for Blech32. Feeding a symbol multiplies by x, adds the symbol and
  reduces by the generator.
*/
module CheckSymbols {

  datatype Code = Bech32 | Blech32

  datatype Encoding = Plain | Modified

  type Symbol = v: nat | v < 32

  datatype Poly = Poly(bits: bv64)

  const ZERO := Poly(0)

  /** The number of checksum symbols. */
  function Length(code: Code): nat {
    if code.Bech32? then 6 else 12
  }

  function Constant(code: Code, encoding: Encoding): Poly {
    match encoding
    case Plain => Poly(1)
    case Modified => if code.Bech32? then Poly(0x2bc830a3) else Poly(0x455972a3350f7a1)
  }

  function Xor(a: Poly, b: Poly): Poly {
    Poly(a.bits ^ b.bits)
  }

  function OfSymbol(v: Symbol): Poly {
    Poly((v as bv5) as bv64)
  }

  /** The coefficient at the bottom. */
  function Low(c: Poly): Symbol {
    ((c.bits & 31) as bv5) as nat
  }

  /** What is above it. */
  function High(c: Poly): Poly {
    Poly(c.bits >> 5)
  }

  // ----- One step -----

  /** All coefficients but the top one, moved up. */
  function Moved(code: Code, c: Poly): Poly {
    match code
    case Bech32 => BechMoved(c)
    case Blech32 => BlechMoved(c)
  }

  function BechMoved(c: Poly): Poly {
    Poly((c.bits & 0x1ff_ffff) << 5)
  }

  function BlechMoved(c: Poly): Poly {
    Poly((c.bits & 0x7f_ffff_ffff_ffff) << 5)
  }

  /** The top coefficient. */
  function Top(code: Code, c: Poly): Poly {
    match code
    case Bech32 => Poly(c.bits >> 25)
    case Blech32 => Poly(c.bits >> 55)
  }

  predicate Bit(c: Poly, mask: bv64) {
    c.bits & mask != 0
  }

  function When(bit: bool, generator: Poly): Poly {
    if bit then generator else ZERO
  }

  /** The generator times a power of two. */
  function Generator(code: Code, mask: bv64): Poly {
    match code
    case Bech32 =>
      if mask == 1 then Poly(0x3b6a57b2) else if mask == 2 then Poly(0x26508e6d) else if mask == 4 then Poly(0x1ea119fa)
      else if mask == 8 then Poly(0x3d4233dd) else Poly(0x2a1462b3)
    case Blech32 =>
      if mask == 1 then Poly(0x7d52fba40bd886) else if mask == 2 then Poly(0x5e8dbf1a03950c)
      else if mask == 4 then Poly(0x1c3a3c74072a18) else if mask == 8 then Poly(0x385d72fa0e5139)
      else Poly(0x7093e5a608865b)
  }

  /** Every coefficient times two in GF(32), where 32 is 9. */
  function Doubled(c: Poly): Poly {
    var tops := (c.bits >> 4) & 0x84210842108421;
    Poly(((c.bits & 0x7bdef7bdef7bdef) << 1) ^ ((tops << 3) ^ tops))
  }

  /** The table of generators is one generator and its doubles. */
  lemma GeneratorDoubles(code: Code)
    ensures Generator(code, 2) == Doubled(Generator(code, 1)) && Generator(code, 4) == Doubled(Generator(code, 2))
    ensures Generator(code, 8) == Doubled(Generator(code, 4)) && Generator(code, 16) == Doubled(Generator(code, 8))
  {
  }

  function Part(code: Code, c0: Poly, mask: bv64): Poly {
    When(Bit(c0, mask), Generator(code, mask))
  }

  /** What the coefficient that leaves at the top turns into. */
  function Reduce(code: Code, c0: Poly): Poly {
    Xor(Part(code, c0, 1), Xor(Part(code, c0, 2), Xor(Part(code, c0, 4), Xor(Part(code, c0, 8), Part(code, c0, 16)))))
  }

  function Step(code: Code, c: Poly, v: Symbol): Poly {
    Xor(Xor(Moved(code, c), OfSymbol(v)), Reduce(code, Top(code, c)))
  }

  // ----- Linearity of a step -----

  lemma XorSelf(a: Poly)
    ensures Xor(a, a) == ZERO
  {
  }

  lemma XorRight(a: Poly)
    ensures Xor(a, ZERO) == a
  {
  }

  lemma XorLeft(a: Poly)
    ensures Xor(ZERO, a) == a
  {
  }

  lemma XorZero(a: Poly)
    ensures Xor(a, a) == ZERO && Xor(a, ZERO) == a && Xor(ZERO, a) == a
  {
    hide Xor;
    XorSelf(a);
    XorRight(a);
    XorLeft(a);
  }

  lemma XorCancels(a: Poly, b: Poly)
    ensures Xor(a, Xor(a, b)) == b
  {
  }

  lemma XorAssociates(a: Poly, b: Poly, c: Poly)
    ensures Xor(Xor(a, b), c) == Xor(a, Xor(b, c))
  {
  }

  lemma XorCommutes(a: Poly, b: Poly)
    ensures Xor(a, b) == Xor(b, a)
  {
  }

  lemma Regroup(a: Poly, b: Poly, c: Poly, d: Poly)
    ensures Xor(Xor(a, b), Xor(c, d)) == Xor(Xor(a, c), Xor(b, d))
  {
    hide Xor;
    XorAssociates(a, b, Xor(c, d));
    XorAssociates(b, c, d);
    XorCommutes(b, c);
    XorAssociates(c, b, d);
    XorAssociates(a, c, Xor(b, d));
  }

  lemma BechMovedLinear(a: Poly, b: Poly)
    ensures BechMoved(Xor(a, b)) == Xor(BechMoved(a), BechMoved(b))
  {
  }

  lemma BlechMovedLinear(a: Poly, b: Poly)
    ensures BlechMoved(Xor(a, b)) == Xor(BlechMoved(a), BlechMoved(b))
  {
  }

  lemma MovedLinear(code: Code, a: Poly, b: Poly)
    ensures Moved(code, Xor(a, b)) == Xor(Moved(code, a), Moved(code, b))
  {
    hide BechMoved, BlechMoved, Xor;
    BechMovedLinear(a, b);
    BlechMovedLinear(a, b);
  }

  lemma Bit1Linear(x: Poly, y: Poly)
    ensures Bit(Xor(x, y), 1) == (Bit(x, 1) != Bit(y, 1))
  {
  }

  lemma Bit2Linear(x: Poly, y: Poly)
    ensures Bit(Xor(x, y), 2) == (Bit(x, 2) != Bit(y, 2))
  {
  }

  lemma Bit4Linear(x: Poly, y: Poly)
    ensures Bit(Xor(x, y), 4) == (Bit(x, 4) != Bit(y, 4))
  {
  }

  lemma Bit8Linear(x: Poly, y: Poly)
    ensures Bit(Xor(x, y), 8) == (Bit(x, 8) != Bit(y, 8))
  {
  }

  lemma Bit16Linear(x: Poly, y: Poly)
    ensures Bit(Xor(x, y), 16) == (Bit(x, 16) != Bit(y, 16))
  {
  }

  lemma TopLinear(code: Code, a: Poly, b: Poly)
    ensures Top(code, Xor(a, b)) == Xor(Top(code, a), Top(code, b))
  {
    if code.Bech32? {
    }
  }

  lemma PartLinear(code: Code, x: Poly, y: Poly, mask: bv64)
    requires Bit(Xor(x, y), mask) == (Bit(x, mask) != Bit(y, mask))
    ensures Part(code, Xor(x, y), mask) == Xor(Part(code, x, mask), Part(code, y, mask))
  {
    hide Xor, Bit, Generator;
    XorZero(Generator(code, mask));
    XorZero(ZERO);
  }

  lemma ReduceLinear(code: Code, x: Poly, y: Poly)
    ensures Reduce(code, Xor(x, y)) == Xor(Reduce(code, x), Reduce(code, y))
  {
    hide Xor, Bit, Part;
    Bit1Linear(x, y);
    Bit2Linear(x, y);
    Bit4Linear(x, y);
    Bit8Linear(x, y);
    Bit16Linear(x, y);
    PartLinear(code, x, y, 1);
    PartLinear(code, x, y, 2);
    PartLinear(code, x, y, 4);
    PartLinear(code, x, y, 8);
    PartLinear(code, x, y, 16);
    var x8, y8 := Xor(Part(code, x, 8), Part(code, x, 16)), Xor(Part(code, y, 8), Part(code, y, 16));
    Regroup(Part(code, x, 8), Part(code, y, 8), Part(code, x, 16), Part(code, y, 16));
    var x4, y4 := Xor(Part(code, x, 4), x8), Xor(Part(code, y, 4), y8);
    Regroup(Part(code, x, 4), Part(code, y, 4), x8, y8);
    var x2, y2 := Xor(Part(code, x, 2), x4), Xor(Part(code, y, 2), y4);
    Regroup(Part(code, x, 2), Part(code, y, 2), x4, y4);
    Regroup(Part(code, x, 1), Part(code, y, 1), x2, y2);
  }

  lemma ZeroSymbol()
    ensures OfSymbol(0) == ZERO
  {
  }

  /** A step is linear over exclusive or. */
  lemma StepLinear(code: Code, a: Poly, b: Poly, v: Symbol)
    ensures Step(code, Xor(a, b), v) == Xor(Step(code, a, 0), Step(code, b, v))
  {
    hide Xor, Moved, Reduce, Top, OfSymbol;
    ZeroSymbol();
    MovedLinear(code, a, b);
    TopLinear(code, a, b);
    var x, y := Top(code, a), Top(code, b);
    ReduceLinear(code, x, y);
    XorZero(OfSymbol(v));
    Regroup(Moved(code, a), Moved(code, b), ZERO, OfSymbol(v));
    Regroup(Xor(Moved(code, a), ZERO), Xor(Moved(code, b), OfSymbol(v)), Reduce(code, x), Reduce(code, y));
  }

  // ----- Room -----

  /** A state of n coefficients. */
  predicate Fits(c: Poly, n: nat) {
    if n == 0 then c.bits == 0 else if n == 1 then c.bits < 0x20 else if n == 2 then c.bits < 0x400
    else if n == 3 then c.bits < 0x8000 else if n == 4 then c.bits < 0x10_0000 else if n == 5 then c.bits < 0x200_0000
    else if n == 6 then c.bits < 0x4000_0000 else if n == 7 then c.bits < 0x8_0000_0000
    else if n == 8 then c.bits < 0x100_0000_0000 else if n == 9 then c.bits < 0x2000_0000_0000
    else if n == 10 then c.bits < 0x4_0000_0000_0000 else if n == 11 then c.bits < 0x80_0000_0000_0000
    else c.bits < 0x1000_0000_0000_0000
  }

  lemma StepFits(code: Code, c: Poly, v: Symbol)
    requires Fits(c, Length(code))
    ensures Fits(Step(code, c, v), Length(code))
  {
  }

  lemma XorFits(code: Code, a: Poly, b: Poly)
    requires Fits(a, Length(code)) && Fits(b, Length(code))
    ensures Fits(Xor(a, b), Length(code))
  {
  }

  lemma ConstantFits(code: Code, encoding: Encoding)
    ensures Fits(Constant(code, encoding), Length(code)) && Fits(Poly(1), Length(code))
  {
  }

  lemma BelowTop(code: Code, c: Poly, n: nat)
    requires n < Length(code) && Fits(c, n)
    ensures if code.Bech32? then c.bits < 0x200_0000 else c.bits < 0x80_0000_0000_0000
  {
  }

  lemma BechTopZero(c: Poly)
    requires c.bits < 0x200_0000
    ensures Top(Bech32, c) == ZERO && BechMoved(c) == Up(c)
  {
  }

  lemma BlechTopZero(c: Poly)
    requires c.bits < 0x80_0000_0000_0000
    ensures Top(Blech32, c) == ZERO && BlechMoved(c) == Up(c)
  {
  }

  lemma TopZero(code: Code, c: Poly, n: nat)
    requires n < Length(code) && Fits(c, n)
    ensures Top(code, c) == ZERO && Moved(code, c) == Up(c)
  {
    hide Fits, Top, Up, BechMoved, BlechMoved;
    BelowTop(code, c, n);
    if code.Bech32? {
      BechTopZero(c);
    } else {
      BlechTopZero(c);
    }
  }

  function Up(c: Poly): Poly {
    Poly(c.bits << 5)
  }

  lemma ReduceZero(code: Code)
    ensures Reduce(code, ZERO) == ZERO
  {
    hide Xor;
    XorZero(ZERO);
  }

  /** Multiplying by x and adding a symbol, when there is room. */
  function Append(c: Poly, v: Symbol): Poly {
    Xor(Up(c), OfSymbol(v))
  }

  lemma StepAppends(code: Code, c: Poly, v: Symbol, n: nat)
    requires n < Length(code) && Fits(c, n)
    ensures Step(code, c, v) == Append(c, v)
  {
    hide Xor, Top, Moved, Reduce, Fits, OfSymbol, Up;
    TopZero(code, c, n);
    ReduceZero(code);
    XorZero(Append(c, v));
  }

  lemma AppendFits(c: Poly, v: Symbol, n: nat)
    requires n < 12 && Fits(c, n)
    ensures Fits(Append(c, v), n + 1)
  {
  }

  lemma AppendSplits(c: Poly, v: Symbol)
    requires Fits(c, 11)
    ensures High(Append(c, v)) == c && Low(Append(c, v)) == v
  {
  }

  lemma AppendRestores(c: Poly)
    ensures Append(High(c), Low(c)) == c
  {
  }

  lemma HighFits(c: Poly, n: nat)
    requires n < 12 && Fits(c, n + 1)
    ensures Fits(High(c), n)
  {
  }

  lemma EqualIfXorZero(a: Poly, b: Poly)
    requires Xor(a, b) == ZERO
    ensures a == b
  {
  }

  lemma MovedClearsLow(code: Code, c: Poly)
    ensures Moved(code, c).bits & 31 == 0
  {
  }

  lemma BechLow(p1: bool, p2: bool, p4: bool, p8: bool, p16: bool, r: bv64)
    requires r == (if p1 then 0x3b6a57b2 else 0) ^ ((if p2 then 0x26508e6d else 0) ^ ((if p4 then 0x1ea119fa else 0) ^
                  ((if p8 then 0x3d4233dd else 0) ^ (if p16 then 0x2a1462b3 else 0)))) && r & 31 == 0
    ensures !p1 && !p2 && !p4 && !p8 && !p16
  {
  }

  lemma BlechLow(p1: bool, p2: bool, p4: bool, p8: bool, p16: bool, r: bv64)
    requires r == (if p1 then 0x7d52fba40bd886 else 0) ^ ((if p2 then 0x5e8dbf1a03950c else 0) ^
                  ((if p4 then 0x1c3a3c74072a18 else 0) ^ ((if p8 then 0x385d72fa0e5139 else 0) ^
                  (if p16 then 0x7093e5a608865b else 0)))) && r & 31 == 0
    ensures !p1 && !p2 && !p4 && !p8 && !p16
  {
  }

  lemma BitsZero(t: Poly)
    requires t.bits < 32 && !Bit(t, 1) && !Bit(t, 2) && !Bit(t, 4) && !Bit(t, 8) && !Bit(t, 16)
    ensures t == ZERO
  {
  }

  lemma TopSmall(code: Code, c: Poly)
    requires Fits(c, Length(code))
    ensures Top(code, c).bits < 32
  {
  }

  lemma PartsZero(code: Code, c: Poly)
    requires Fits(c, Length(code)) && Top(code, c) == ZERO && Moved(code, c) == ZERO
    ensures c == ZERO
  {
  }

  lemma ReduceLow(code: Code, t: Poly)
    requires t.bits < 32 && Reduce(code, t).bits & 31 == 0
    ensures t == ZERO
  {
    if code.Bech32? {
      BechLow(Bit(t, 1), Bit(t, 2), Bit(t, 4), Bit(t, 8), Bit(t, 16), Reduce(code, t).bits);
    } else {
      BlechLow(Bit(t, 1), Bit(t, 2), Bit(t, 4), Bit(t, 8), Bit(t, 16), Reduce(code, t).bits);
    }
    BitsZero(t);
  }

  /** Whatever leaves at the top leaves a trace at the bottom. */
  lemma ZeroOnlyFromZero(code: Code, c: Poly)
    requires Fits(c, Length(code)) && Step(code, c, 0) == ZERO
    ensures c == ZERO
  {
    hide Xor, Moved, Reduce, Top, OfSymbol, Fits;
    ZeroSymbol();
    XorZero(Moved(code, c));
    EqualIfXorZero(Moved(code, c), Reduce(code, Top(code, c)));
    MovedClearsLow(code, c);
    TopSmall(code, c);
    ReduceLow(code, Top(code, c));
    ReduceZero(code);
    PartsZero(code, c);
  }

  /** With the same symbol a step never brings two states together. */
  lemma StepInjective(code: Code, a: Poly, b: Poly, v: Symbol)
    requires Fits(a, Length(code)) && Fits(b, Length(code)) && Step(code, a, v) == Step(code, b, v)
    ensures a == b
  {
    hide Step, Xor, Fits;
    var d := Xor(a, b);
    XorCancels(a, b);
    StepLinear(code, d, a, v);
    XorCommutes(d, a);
    XorCommutes(Step(code, d, 0), Step(code, a, v));
    XorCancels(Step(code, a, v), Step(code, d, 0));
    XorZero(Step(code, a, v));
    XorFits(code, a, b);
    ZeroOnlyFromZero(code, d);
    EqualIfXorZero(a, b);
  }

  // ----- Words -----

  function Feed(code: Code, c: Poly, w: seq<Symbol>): Poly
    decreases |w|
  {
    if w == [] then c else Feed(code, Step(code, c, w[0]), w[1..])
  }

  function Zeros(n: nat): seq<Symbol> {
    seq(n, _ => 0)
  }

  lemma {:induction false} FeedConcat(code: Code, c: Poly, u: seq<Symbol>, w: seq<Symbol>)
    ensures Feed(code, c, u + w) == Feed(code, Feed(code, c, u), w)
    decreases |u|
  {
    hide Step;
    if u == [] {
      assert u + w == w;
    } else {
      assert (u + w)[1..] == u[1..] + w;
      FeedConcat(code, Step(code, c, u[0]), u[1..], w);
    }
  }

  lemma {:induction false} FeedFits(code: Code, c: Poly, w: seq<Symbol>)
    requires Fits(c, Length(code))
    ensures Fits(Feed(code, c, w), Length(code))
    decreases |w|
  {
    hide Step, Fits;
    if w != [] {
      StepFits(code, c, w[0]);
      FeedFits(code, Step(code, c, w[0]), w[1..]);
    }
  }

  lemma {:induction false} FeedInjective(code: Code, a: Poly, b: Poly, w: seq<Symbol>)
    requires Fits(a, Length(code)) && Fits(b, Length(code)) && Feed(code, a, w) == Feed(code, b, w)
    ensures a == b
    decreases |w|
  {
    hide Step, Fits;
    if w != [] {
      StepFits(code, a, w[0]);
      StepFits(code, b, w[0]);
      FeedInjective(code, Step(code, a, w[0]), Step(code, b, w[0]), w[1..]);
      StepInjective(code, a, b, w[0]);
    }
  }

  /** A word acts on a state as zeros would, plus what it does alone. */
  lemma {:induction false} FeedSplits(code: Code, a: Poly, b: Poly, w: seq<Symbol>)
    ensures Feed(code, Xor(a, b), w) == Xor(Feed(code, a, Zeros(|w|)), Feed(code, b, w))
    decreases |w|
  {
    hide Step, Xor;
    if w != [] {
      StepLinear(code, a, b, w[0]);
      FeedSplits(code, Step(code, a, 0), Step(code, b, w[0]), w[1..]);
      assert Zeros(|w|)[1..] == Zeros(|w[1..]|);
    }
  }

  lemma FeedAlone(code: Code, c: Poly, w: seq<Symbol>)
    ensures Feed(code, c, w) == Xor(Feed(code, c, Zeros(|w|)), Feed(code, ZERO, w))
  {
    hide Step, Xor, Feed;
    XorZero(c);
    FeedSplits(code, c, ZERO, w);
  }

  lemma Unsnoc(code: Code, c: Poly, w: seq<Symbol>)
    requires |w| > 0
    ensures Feed(code, c, w) == Step(code, Feed(code, c, w[..|w| - 1]), w[|w| - 1])
  {
    hide Step;
    var u, x := w[..|w| - 1], w[|w| - 1];
    assert w == u + [x];
    FeedConcat(code, c, u, [x]);
    assert Feed(code, Feed(code, c, u), [x]) == Feed(code, Step(code, Feed(code, c, u), x), [x][1..]);
  }

  lemma {:induction false} ShortFits(code: Code, w: seq<Symbol>)
    requires |w| <= Length(code)
    ensures Fits(Feed(code, ZERO, w), |w|)
    decreases |w|
  {
    hide Step, Append;
    if w != [] {
      var n := |w| - 1;
      var c := Feed(code, ZERO, w[..n]);
      ShortFits(code, w[..n]);
      Unsnoc(code, ZERO, w);
      StepAppends(code, c, w[n], n);
      AppendFits(c, w[n], n);
    }
  }

  lemma FitsMore(c: Poly, n: nat)
    requires n < 12 && Fits(c, n)
    ensures Fits(c, 11)
  {
  }

  lemma FitsNone(c: Poly)
    requires Fits(c, 0)
    ensures c == ZERO
  {
  }

  /** Words no longer than the checksum, fed into zero, can be read off the state again. */
  lemma {:induction false} ShortInjective(code: Code, u: seq<Symbol>, w: seq<Symbol>)
    requires |u| == |w| <= Length(code) && Feed(code, ZERO, u) == Feed(code, ZERO, w)
    ensures u == w
    decreases |u|
  {
    hide Step, Append, Fits, High, Low, Feed;
    if u != [] {
      var n := |u| - 1;
      var p, q := Feed(code, ZERO, u[..n]), Feed(code, ZERO, w[..n]);
      Unsnoc(code, ZERO, u);
      Unsnoc(code, ZERO, w);
      ShortFits(code, u[..n]);
      ShortFits(code, w[..n]);
      StepAppends(code, p, u[n], n);
      StepAppends(code, q, w[n], n);
      FitsMore(p, n);
      FitsMore(q, n);
      AppendSplits(p, u[n]);
      AppendSplits(q, w[n]);
      ShortInjective(code, u[..n], w[..n]);
      assert u == u[..n] + [u[n]] && w == w[..n] + [w[n]];
    }
  }

  /** The lowest n coefficients of a state, the highest first. */
  function Groups(m: Poly, n: nat): (w: seq<Symbol>)
    ensures |w| == n
    decreases n
  {
    if n == 0 then [] else Groups(High(m), n - 1) + [Low(m)]
  }

  lemma {:induction false} GroupsFeedBack(code: Code, m: Poly, n: nat)
    requires n <= Length(code) && Fits(m, n)
    ensures Feed(code, ZERO, Groups(m, n)) == m
    decreases n
  {
    hide Step, Append, High, Low, Fits;
    if n == 0 {
      FitsNone(m);
    } else {
      HighFits(m, n - 1);
      GroupsFeedBack(code, High(m), n - 1);
      var w := Groups(m, n);
      assert w[..n - 1] == Groups(High(m), n - 1) && w[n - 1] == Low(m);
      Unsnoc(code, ZERO, w);
      StepAppends(code, High(m), Low(m), n - 1);
      AppendRestores(m);
    }
  }

  /** The symbols that take a state to a target, as many as the checksum has. */
  function Checksum(code: Code, c: Poly, target: Poly): (w: seq<Symbol>)
    ensures |w| == Length(code)
  {
    Groups(Xor(Feed(code, c, Zeros(Length(code))), target), Length(code))
  }

  /** The checksum reaches its target, and no other word of its length does. */
  lemma ChecksumCorrect(code: Code, c: Poly, target: Poly, w: seq<Symbol>)
    requires Fits(c, Length(code)) && Fits(target, Length(code)) && |w| == Length(code)
    ensures Feed(code, c, w) == target <==> w == Checksum(code, c, target)
  {
    hide Step, Feed, Xor, Fits, Groups;
    var z := Feed(code, c, Zeros(Length(code)));
    var m := Xor(z, target);
    FeedFits(code, c, Zeros(Length(code)));
    XorFits(code, z, target);
    GroupsFeedBack(code, m, Length(code));
    FeedAlone(code, c, w);
    FeedAlone(code, c, Checksum(code, c, target));
    XorCancels(z, target);
    XorCancels(z, Feed(code, ZERO, w));
    if Feed(code, c, w) == target { ShortInjective(code, w, Checksum(code, c, target)); }
  }

  /**
    A burst is always detected: words that differ only within as many neighbouring symbols as
    the checksum has never reach the same state.
  */
  lemma BurstDetected(code: Code, c: Poly, u: seq<Symbol>, w: seq<Symbol>, q: seq<Symbol>)
    requires Fits(c, Length(code)) && |u| == |w| <= Length(code)
    requires Feed(code, c, u + q) == Feed(code, c, w + q)
    ensures u == w
  {
    hide Step, Feed, Xor, Fits;
    FeedConcat(code, c, u, q);
    FeedConcat(code, c, w, q);
    FeedFits(code, c, u);
    FeedFits(code, c, w);
    FeedInjective(code, Feed(code, c, u), Feed(code, c, w), q);
    FeedAlone(code, c, u);
    FeedAlone(code, c, w);
    var z := Feed(code, c, Zeros(|u|));
    XorCancels(z, Feed(code, ZERO, u));
    XorCancels(z, Feed(code, ZERO, w));
    ShortInjective(code, u, w);
  }
}
