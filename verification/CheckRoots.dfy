/**
  The values of a checksum state at three roots of the generator.

  A state stands for a polynomial. Its value at a root of the generator lies in the field
  with 1024 elements, and feeding a zero to the checksum multiplies that value by the root.
*/
module CheckRoots {
  import opened CheckSymbols
  import opened CheckField

  // ----- The symbols among the elements -----

  /** Where a power of two goes. */
  function Image(code: Code, mask: bv64): Poly {
    match code
    case Bech32 =>
      if mask == 1 then Poly(0x1) else if mask == 2 then Poly(0xe) else if mask == 4 then Poly(0x54)
      else if mask == 8 then Poly(0x358) else Poly(0xbf)
    case Blech32 =>
      if mask == 1 then Poly(0x1) else if mask == 2 then Poly(0x7) else if mask == 4 then Poly(0x15)
      else if mask == 8 then Poly(0x6b) else Poly(0x111)
  }

  function Spot(code: Code, s: Poly, mask: bv64): Poly {
    When(Bit(s, mask), Image(code, mask))
  }

  /** The element of the coefficient at the bottom. */
  function Embed(code: Code, s: Poly): Poly {
    Xor(Spot(code, s, 1), Xor(Spot(code, s, 2), Xor(Spot(code, s, 4), Xor(Spot(code, s, 8), Spot(code, s, 16)))))
  }

  lemma SpotLinear(code: Code, x: Poly, y: Poly, mask: bv64)
    requires Bit(Xor(x, y), mask) == (Bit(x, mask) != Bit(y, mask))
    ensures Spot(code, Xor(x, y), mask) == Xor(Spot(code, x, mask), Spot(code, y, mask))
  {
    hide Xor, Bit, Image;
    XorZero(Image(code, mask));
    XorZero(ZERO);
  }

  lemma EmbedLinear(code: Code, x: Poly, y: Poly)
    ensures Embed(code, Xor(x, y)) == Xor(Embed(code, x), Embed(code, y))
  {
    hide Xor, Bit, Spot;
    Bit1Linear(x, y);
    Bit2Linear(x, y);
    Bit4Linear(x, y);
    Bit8Linear(x, y);
    Bit16Linear(x, y);
    SpotLinear(code, x, y, 1);
    SpotLinear(code, x, y, 2);
    SpotLinear(code, x, y, 4);
    SpotLinear(code, x, y, 8);
    SpotLinear(code, x, y, 16);
    var x8, y8 := Xor(Spot(code, x, 8), Spot(code, x, 16)), Xor(Spot(code, y, 8), Spot(code, y, 16));
    Regroup(Spot(code, x, 8), Spot(code, y, 8), Spot(code, x, 16), Spot(code, y, 16));
    var x4, y4 := Xor(Spot(code, x, 4), x8), Xor(Spot(code, y, 4), y8);
    Regroup(Spot(code, x, 4), Spot(code, y, 4), x8, y8);
    var x2, y2 := Xor(Spot(code, x, 2), x4), Xor(Spot(code, y, 2), y4);
    Regroup(Spot(code, x, 2), Spot(code, y, 2), x4, y4);
    Regroup(Spot(code, x, 1), Spot(code, y, 1), x2, y2);
  }

  lemma ElementXor(a: Poly, b: Poly)
    requires Element(a) && Element(b)
    ensures Element(Xor(a, b))
  {
  }

  lemma SpotElement(code: Code, s: Poly, mask: bv64)
    ensures Element(Spot(code, s, mask))
  {
    hide Bit;
  }

  lemma EmbedElement(code: Code, s: Poly)
    ensures Element(Embed(code, s))
  {
    hide Xor, Spot, Element;
    SpotElement(code, s, 1);
    SpotElement(code, s, 2);
    SpotElement(code, s, 4);
    SpotElement(code, s, 8);
    SpotElement(code, s, 16);
    var s8 := Xor(Spot(code, s, 8), Spot(code, s, 16));
    var s4 := Xor(Spot(code, s, 4), s8);
    ElementXor(Spot(code, s, 8), Spot(code, s, 16));
    ElementXor(Spot(code, s, 4), s8);
    ElementXor(Spot(code, s, 2), s4);
    ElementXor(Spot(code, s, 1), Xor(Spot(code, s, 2), s4));
  }

  lemma BechIndependent(p1: bool, p2: bool, p4: bool, p8: bool, p16: bool, r: bv64)
    requires r == (if p1 then 0x1 else 0) ^ ((if p2 then 0xe else 0) ^ ((if p4 then 0x54 else 0) ^
                  ((if p8 then 0x358 else 0) ^ (if p16 then 0xbf else 0)))) && r == 0
    ensures !p1 && !p2 && !p4 && !p8 && !p16
  {
  }

  lemma BlechIndependent(p1: bool, p2: bool, p4: bool, p8: bool, p16: bool, r: bv64)
    requires r == (if p1 then 0x1 else 0) ^ ((if p2 then 0x7 else 0) ^ ((if p4 then 0x15 else 0) ^
                  ((if p8 then 0x6b else 0) ^ (if p16 then 0x111 else 0)))) && r == 0
    ensures !p1 && !p2 && !p4 && !p8 && !p16
  {
  }

  /** Different symbols are different elements. */
  lemma EmbedNotZero(code: Code, s: Poly)
    requires s.bits < 32 && Embed(code, s) == ZERO
    ensures s == ZERO
  {
    if code.Bech32? {
      BechIndependent(Bit(s, 1), Bit(s, 2), Bit(s, 4), Bit(s, 8), Bit(s, 16), Embed(code, s).bits);
    } else {
      BlechIndependent(Bit(s, 1), Bit(s, 2), Bit(s, 4), Bit(s, 8), Bit(s, 16), Embed(code, s).bits);
    }
    BitsZero(s);
  }

  lemma UpHasNoBits(c: Poly)
    ensures !Bit(Up(c), 1) && !Bit(Up(c), 2) && !Bit(Up(c), 4) && !Bit(Up(c), 8) && !Bit(Up(c), 16)
  {
  }

  lemma EmbedUp(code: Code, c: Poly)
    ensures Embed(code, Up(c)) == ZERO
  {
    hide Xor, Bit, Up;
    UpHasNoBits(c);
    XorZero(ZERO);
  }

  // ----- The value of a state at a root -----

  /** The polynomial of the lowest n coefficients at the e-th power of the primitive element. */
  function Eval(code: Code, e: nat, n: nat, c: Poly): Poly
    decreases n
  {
    if n == 0 then ZERO else Xor(Turns(code, Eval(code, e, n - 1, High(c)), e), Embed(code, c))
  }

  lemma HighLinear(a: Poly, b: Poly)
    ensures High(Xor(a, b)) == Xor(High(a), High(b))
  {
  }

  lemma {:induction false} EvalLinear(code: Code, e: nat, n: nat, a: Poly, b: Poly)
    ensures Eval(code, e, n, Xor(a, b)) == Xor(Eval(code, e, n, a), Eval(code, e, n, b))
    decreases n
  {
    hide Xor, High, Embed, Turns;
    if n == 0 {
      XorZero(ZERO);
    } else {
      HighLinear(a, b);
      EvalLinear(code, e, n - 1, High(a), High(b));
      var x, y := Eval(code, e, n - 1, High(a)), Eval(code, e, n - 1, High(b));
      TurnsLinear(code, x, y, e);
      EmbedLinear(code, a, b);
      Regroup(Turns(code, x, e), Turns(code, y, e), Embed(code, a), Embed(code, b));
    }
  }

  lemma {:induction false} EvalElement(code: Code, e: nat, n: nat, c: Poly)
    ensures Element(Eval(code, e, n, c))
    decreases n
  {
    hide Xor, High, Embed, Turns;
    if n > 0 {
      EvalElement(code, e, n - 1, High(c));
      TurnsKeep(code, Eval(code, e, n - 1, High(c)), e);
      EmbedElement(code, c);
      ElementXor(Turns(code, Eval(code, e, n - 1, High(c)), e), Embed(code, c));
    }
  }

  lemma EmbedZero(code: Code)
    ensures Embed(code, ZERO) == ZERO
  {
    hide Xor;
    XorZero(ZERO);
  }

  /** A leading coefficient zero adds nothing. */
  lemma {:induction false} EvalLonger(code: Code, e: nat, n: nat, c: Poly)
    requires n < 12 && Fits(c, n)
    ensures Eval(code, e, n + 1, c) == Eval(code, e, n, c)
    decreases n
  {
    hide Xor, High, Embed, Turns, Fits;
    if n == 0 {
      ZeroFits(c);
      EmbedZero(code);
      TurnsZero(code, e);
      XorZero(ZERO);
      assert Eval(code, e, 0, High(c)) == ZERO;
    } else {
      HighFits(c, n - 1);
      EvalLonger(code, e, n - 1, High(c));
    }
  }

  lemma ZeroFits(c: Poly)
    requires Fits(c, 0)
    ensures c == ZERO
  {
  }

  lemma EvalAppend(code: Code, e: nat, n: nat, c: Poly, v: Symbol)
    requires Fits(c, 11)
    ensures Eval(code, e, n + 1, Append(c, v)) == Xor(Turns(code, Eval(code, e, n, c), e), Embed(code, OfSymbol(v)))
  {
    hide Xor, High, Embed, Turns, Fits, Up, OfSymbol, Append;
    AppendSplits(c, v);
    AppendEmbeds(code, c, v);
  }

  lemma AppendEmbeds(code: Code, c: Poly, v: Symbol)
    ensures Embed(code, Append(c, v)) == Embed(code, OfSymbol(v))
  {
    hide Xor, Embed, Up, OfSymbol;
    EmbedLinear(code, Up(c), OfSymbol(v));
    EmbedUp(code, c);
    XorZero(Embed(code, OfSymbol(v)));
  }

  lemma AppendZero(c: Poly)
    ensures Append(c, 0) == Up(c)
  {
    hide Xor, Up, OfSymbol;
    ZeroSymbol();
    XorZero(Up(c));
  }

  // ----- The coefficient at the top -----

  function Lift(t: Poly, k: nat): Poly {
    if k == 0 then t else Up(Lift(t, k - 1))
  }

  /** All coefficients but the top one. */
  function Rest(code: Code, c: Poly): Poly {
    Poly(c.bits & if code.Bech32? then 0x1ff_ffff else 0x7f_ffff_ffff_ffff)
  }

  lemma SymbolFits(t: Poly)
    requires t.bits < 32
    ensures Fits(t, 1)
  {
  }

  lemma MoreFits(c: Poly, n: nat)
    requires n <= 11 && Fits(c, n)
    ensures Fits(c, 11)
  {
  }

  lemma {:induction false} EvalLift(code: Code, e: nat, t: Poly, k: nat)
    requires t.bits < 32 && k < 12
    ensures Fits(Lift(t, k), k + 1) && Eval(code, e, k + 1, Lift(t, k)) == Turns(code, Embed(code, t), e * k)
    decreases k
  {
    hide Xor, High, Embed, Fits, Up, Turns;
    if k == 0 {
      SymbolFits(t);
      TurnsZero(code, e);
      XorZero(Embed(code, t));
      assert Eval(code, e, 0, High(t)) == ZERO;
      NoTurns(code, Embed(code, t));
    } else {
      var c := Lift(t, k - 1);
      EvalLift(code, e, t, k - 1);
      AppendFits(c, 0, k);
      AppendZero(c);
      MoreFits(c, k);
      EvalAppend(code, e, k, c, 0);
      EmbedZeroSymbol(code);
      XorZero(Turns(code, Eval(code, e, k, c), e));
      TurnsAdd(code, Embed(code, t), e * (k - 1), e);
      assert e * (k - 1) + e == e * k;
    }
  }

  lemma NoTurns(code: Code, z: Poly)
    ensures Turns(code, z, 0) == z
  {
  }

  lemma EmbedZeroSymbol(code: Code)
    ensures Embed(code, OfSymbol(0)) == ZERO
  {
    hide Embed, OfSymbol;
    ZeroSymbol();
    EmbedZero(code);
  }

  lemma BechPieces(c: Poly)
    requires c.bits < 0x4000_0000
    ensures Xor(Poly(c.bits & 0x1ff_ffff), Poly((c.bits >> 25) << 25)) == c && c.bits & 0x1ff_ffff < 0x200_0000
  {
  }

  lemma BlechPieces(c: Poly)
    requires c.bits < 0x1000_0000_0000_0000
    ensures Xor(Poly(c.bits & 0x7f_ffff_ffff_ffff), Poly((c.bits >> 55) << 55)) == c
    ensures c.bits & 0x7f_ffff_ffff_ffff < 0x80_0000_0000_0000
  {
  }

  function UpBits(b: bv64): bv64 {
    b << 5
  }

  lemma UpIs(b: bv64)
    ensures Up(Poly(b)) == Poly(UpBits(b))
  {
  }

  lemma FiveUp(b: bv64)
    ensures UpBits(UpBits(UpBits(UpBits(UpBits(b))))) == b << 25
  {
  }

  lemma SixUp(b: bv64)
    ensures UpBits(UpBits(UpBits(UpBits(UpBits(UpBits(b)))))) == b << 30
  {
  }

  lemma ElevenUp(b: bv64)
    ensures (b << 25) << 30 == b << 55
  {
  }

  lemma LiftOne(t: Poly, k: nat, b: bv64)
    requires Lift(t, k) == Poly(b)
    ensures Lift(t, k + 1) == Poly(UpBits(b))
  {
    hide Up, UpBits;
    UpIs(b);
  }

  lemma Lift5(t: bv64)
    ensures Lift(Poly(t), 5) == Poly(t << 25)
  {
    hide Lift, UpBits;
    var a := UpBits(t);
    var b := UpBits(a);
    var c := UpBits(b);
    NotLifted(Poly(t));
    LiftOne(Poly(t), 0, t);
    LiftOne(Poly(t), 1, a);
    LiftOne(Poly(t), 2, b);
    LiftOne(Poly(t), 3, c);
    LiftOne(Poly(t), 4, UpBits(c));
    FiveUp(t);
  }

  lemma NotLifted(t: Poly)
    ensures Lift(t, 0) == t
  {
  }

  lemma Lift11(t: bv64)
    ensures Lift(Poly(t), 11) == Poly(t << 55)
  {
    hide Lift, UpBits;
    Lift5(t);
    var five := t << 25;
    var a := UpBits(five);
    var b := UpBits(a);
    var c := UpBits(b);
    var d := UpBits(c);
    LiftOne(Poly(t), 5, five);
    LiftOne(Poly(t), 6, a);
    LiftOne(Poly(t), 7, b);
    LiftOne(Poly(t), 8, c);
    LiftOne(Poly(t), 9, d);
    LiftOne(Poly(t), 10, UpBits(d));
    SixUp(five);
    ElevenUp(t);
  }

  lemma BechTogether(c: Poly)
    requires c.bits < 0x4000_0000
    ensures c == Xor(Rest(Bech32, c), Lift(Top(Bech32, c), 5)) && Rest(Bech32, c).bits < 0x200_0000
  {
    hide Xor, Lift;
    BechPieces(c);
    Lift5(c.bits >> 25);
  }

  lemma BlechTogether(c: Poly)
    requires c.bits < 0x1000_0000_0000_0000
    ensures c == Xor(Rest(Blech32, c), Lift(Top(Blech32, c), 11)) && Rest(Blech32, c).bits < 0x80_0000_0000_0000
  {
    hide Xor, Lift;
    BlechPieces(c);
    Lift11(c.bits >> 55);
  }

  lemma MovedIsUp(code: Code, c: Poly)
    ensures Moved(code, c) == Up(Rest(code, c))
  {
  }

  /** A state is its top coefficient in place and the rest. */
  lemma Apart(code: Code, c: Poly)
    requires Fits(c, Length(code))
    ensures c == Xor(Rest(code, c), Lift(Top(code, c), Length(code) - 1))
    ensures Fits(Rest(code, c), Length(code) - 1) && Moved(code, c) == Up(Rest(code, c))
  {
    hide Lift, Xor, Rest, Top, Moved, Up;
    MovedIsUp(code, c);
    if code.Bech32? {
      BechTogether(c);
    } else {
      BlechTogether(c);
    }
  }

  // ----- The generator has three roots in a row -----

  function Both(a: bv64, b: bv64): bv64 {
    a ^ b
  }

  lemma BothIs(a: bv64, b: bv64)
    ensures Xor(Poly(a), Poly(b)) == Poly(Both(a, b))
  {
  }

  function Sum(a: bv64, b: bv64, c: bv64, d: bv64, e: bv64): bv64 {
    Both(a, Both(b, Both(c, Both(d, e))))
  }

  lemma SumIs(a: bv64, b: bv64, c: bv64, d: bv64, e: bv64)
    ensures Xor(Poly(a), Xor(Poly(b), Xor(Poly(c), Xor(Poly(d), Poly(e))))) == Poly(Sum(a, b, c, d, e))
  {
    hide Xor, Both;
    BothIs(d, e);
    BothIs(c, Both(d, e));
    BothIs(b, Both(c, Both(d, e)));
    BothIs(a, Both(b, Both(c, Both(d, e))));
  }

  lemma BitIs(t: bv64, mask: bv64)
    ensures Bit(Poly(t), mask) == (t & mask != 0)
  {
  }

  lemma SpotIs(code: Code, t: bv64, mask: bv64, g: bv64, p: bv64)
    requires Image(code, mask) == Poly(g) && (if t & mask != 0 then g else 0) == p
    ensures Spot(code, Poly(t), mask) == Poly(p)
  {
    hide Image, Bit;
    BitIs(t, mask);
  }

  function BechEmbed(s: bv64): bv64 {
    Sum((s & 1) * 0x1, ((s >> 1) & 1) * 0xe, ((s >> 2) & 1) * 0x54, ((s >> 3) & 1) * 0x358, ((s >> 4) & 1) * 0xbf)
  }

  lemma BechBits(s: bv64)
    ensures (if s & 1 != 0 then 0x1 else 0) == (s & 1) * 0x1
    ensures (if s & 2 != 0 then 0xe else 0) == ((s >> 1) & 1) * 0xe
    ensures (if s & 4 != 0 then 0x54 else 0) == ((s >> 2) & 1) * 0x54
    ensures (if s & 8 != 0 then 0x358 else 0) == ((s >> 3) & 1) * 0x358
    ensures (if s & 16 != 0 then 0xbf else 0) == ((s >> 4) & 1) * 0xbf
  {
  }

  lemma BechImages()
    ensures Image(Bech32, 1) == Poly(0x1)
    ensures Image(Bech32, 2) == Poly(0xe)
    ensures Image(Bech32, 4) == Poly(0x54)
    ensures Image(Bech32, 8) == Poly(0x358)
    ensures Image(Bech32, 16) == Poly(0xbf)
  {
  }

  lemma BechEmbedIs(s: bv64)
    ensures Embed(Bech32, Poly(s)) == Poly(BechEmbed(s))
  {
    hide Spot, Xor, Sum, Image;
    BechBits(s);
    BechImages();
    SpotIs(Bech32, s, 1, 0x1, (s & 1) * 0x1);
    SpotIs(Bech32, s, 2, 0xe, ((s >> 1) & 1) * 0xe);
    SpotIs(Bech32, s, 4, 0x54, ((s >> 2) & 1) * 0x54);
    SpotIs(Bech32, s, 8, 0x358, ((s >> 3) & 1) * 0x358);
    SpotIs(Bech32, s, 16, 0xbf, ((s >> 4) & 1) * 0xbf);
    SumIs((s & 1) * 0x1, ((s >> 1) & 1) * 0xe, ((s >> 2) & 1) * 0x54, ((s >> 3) & 1) * 0x358, ((s >> 4) & 1) * 0xbf);
  }

  function BlechEmbed(s: bv64): bv64 {
    Sum((s & 1) * 0x1, ((s >> 1) & 1) * 0x7, ((s >> 2) & 1) * 0x15, ((s >> 3) & 1) * 0x6b, ((s >> 4) & 1) * 0x111)
  }

  lemma BlechBits(s: bv64)
    ensures (if s & 1 != 0 then 0x1 else 0) == (s & 1) * 0x1
    ensures (if s & 2 != 0 then 0x7 else 0) == ((s >> 1) & 1) * 0x7
    ensures (if s & 4 != 0 then 0x15 else 0) == ((s >> 2) & 1) * 0x15
    ensures (if s & 8 != 0 then 0x6b else 0) == ((s >> 3) & 1) * 0x6b
    ensures (if s & 16 != 0 then 0x111 else 0) == ((s >> 4) & 1) * 0x111
  {
  }

  lemma BlechImages()
    ensures Image(Blech32, 1) == Poly(0x1)
    ensures Image(Blech32, 2) == Poly(0x7)
    ensures Image(Blech32, 4) == Poly(0x15)
    ensures Image(Blech32, 8) == Poly(0x6b)
    ensures Image(Blech32, 16) == Poly(0x111)
  {
  }

  lemma BlechEmbedIs(s: bv64)
    ensures Embed(Blech32, Poly(s)) == Poly(BlechEmbed(s))
  {
    hide Spot, Xor, Sum, Image;
    BlechBits(s);
    BlechImages();
    SpotIs(Blech32, s, 1, 0x1, (s & 1) * 0x1);
    SpotIs(Blech32, s, 2, 0x7, ((s >> 1) & 1) * 0x7);
    SpotIs(Blech32, s, 4, 0x15, ((s >> 2) & 1) * 0x15);
    SpotIs(Blech32, s, 8, 0x6b, ((s >> 3) & 1) * 0x6b);
    SpotIs(Blech32, s, 16, 0x111, ((s >> 4) & 1) * 0x111);
    SumIs((s & 1) * 0x1, ((s >> 1) & 1) * 0x7, ((s >> 2) & 1) * 0x15, ((s >> 3) & 1) * 0x6b, ((s >> 4) & 1) * 0x111);
  }

  function BechTurn8(z: bv64): bv64 {
    BechTurn(BechTurn(BechTurn(BechTurn(BechTurn(BechTurn(BechTurn(BechTurn(z))))))))
  }

  function BechMore(k: nat, i: nat, z: bv64): bv64 {
    if i >= k then BechTurn(z) else z
  }

  function BlechMore(k: nat, i: nat, z: bv64): bv64 {
    if i >= k then BlechTurn(z) else z
  }

  /** Multiplying by root i of three. */
  function BechRoot(i: nat, z: bv64): bv64 {
    BechMore(2, i, BechMore(1, i, BechTurn8(BechTurn8(BechTurn8(z)))))
  }

  function BlechRoot(i: nat, z: bv64): bv64 {
    BlechMore(2, i, BlechMore(1, i, BlechTurn(z)))
  }

  function DownBits(c: bv64): bv64 {
    c >> 5
  }

  lemma DownIs(c: bv64)
    ensures High(Poly(c)) == Poly(DownBits(c))
  {
  }

  lemma OneTurn(code: Code, z: bv64, n: nat, r: bv64)
    requires Turns(code, Poly(z), n) == Poly(r)
    ensures Turns(code, Poly(z), n + 1) == Poly(if code.Bech32? then BechTurn(r) else BlechTurn(r))
  {
    hide BechTurn, BlechTurn;
  }

  lemma EightTurns(z: bv64, n: nat, r: bv64)
    requires Turns(Bech32, Poly(z), n) == Poly(r)
    ensures Turns(Bech32, Poly(z), n + 8) == Poly(BechTurn8(r))
  {
    hide Turns, BechTurn;
    var a := BechTurn(r);
    var b := BechTurn(a);
    var c := BechTurn(b);
    var d := BechTurn(c);
    var e := BechTurn(d);
    var f := BechTurn(e);
    OneTurn(Bech32, z, n, r);
    OneTurn(Bech32, z, n + 1, a);
    OneTurn(Bech32, z, n + 2, b);
    OneTurn(Bech32, z, n + 3, c);
    OneTurn(Bech32, z, n + 4, d);
    OneTurn(Bech32, z, n + 5, e);
    OneTurn(Bech32, z, n + 6, f);
    OneTurn(Bech32, z, n + 7, BechTurn(f));
  }

  lemma BechRoots(i: nat, z: bv64)
    requires i < 3
    ensures Turns(Bech32, Poly(z), 24 + i) == Poly(BechRoot(i, z))
  {
    hide Turns, BechTurn, BechTurn8;
    NoTurns(Bech32, Poly(z));
    EightTurns(z, 0, z);
    EightTurns(z, 8, BechTurn8(z));
    EightTurns(z, 16, BechTurn8(BechTurn8(z)));
    var r := BechTurn8(BechTurn8(BechTurn8(z)));
    OneTurn(Bech32, z, 24, r);
    OneTurn(Bech32, z, 25, BechTurn(r));
  }

  lemma BlechRoots(i: nat, z: bv64)
    requires i < 3
    ensures Turns(Blech32, Poly(z), 1 + i) == Poly(BlechRoot(i, z))
  {
    hide Turns, BlechTurn;
    NoTurns(Blech32, Poly(z));
    OneTurn(Blech32, z, 0, z);
    OneTurn(Blech32, z, 1, BlechTurn(z));
    OneTurn(Blech32, z, 2, BlechTurn(BlechTurn(z)));
  }

  lemma EvalNext(code: Code, e: nat, n: nat, c: bv64, acc: bv64, r: bv64, s: bv64)
    requires Eval(code, e, n, Poly(DownBits(c))) == Poly(acc) && Turns(code, Poly(acc), e) == Poly(r)
    requires Embed(code, Poly(c)) == Poly(s)
    ensures Eval(code, e, n + 1, Poly(c)) == Poly(Both(r, s))
  {
    hide Xor, Embed, Turns, Both, High, DownBits;
    DownIs(c);
    BothIs(r, s);
  }

  lemma EvalNone(code: Code, e: nat, c: Poly)
    ensures Eval(code, e, 0, c) == Poly(0)
  {
  }

  function BechNext(i: nat, acc: bv64, s: bv64): bv64 {
    Both(BechRoot(i, acc), BechEmbed(s))
  }

  /** The value of a state at root i. */
  function BechValue(i: nat, c: bv64): bv64 {
    var c1 := DownBits(c);
    var c2 := DownBits(c1);
    var c3 := DownBits(c2);
    var c4 := DownBits(c3);
    var c5 := DownBits(c4);
    BechNext(i, BechNext(i, BechNext(i, BechNext(i, BechNext(i, BechNext(i, 0, c5), c4), c3), c2), c1), c)
  }

  function BechPower(i: nat, z: bv64): bv64 {
    BechRoot(i, BechRoot(i, BechRoot(i, BechRoot(i, BechRoot(i, BechRoot(i, z))))))
  }

  lemma BechNextIs(i: nat, n: nat, c: bv64, acc: bv64)
    requires i < 3 && Eval(Bech32, 24 + i, n, Poly(DownBits(c))) == Poly(acc)
    ensures Eval(Bech32, 24 + i, n + 1, Poly(c)) == Poly(BechNext(i, acc, c))
  {
    hide Eval, Turns, Embed, Both, DownBits, BechRoot, BechEmbed;
    BechRoots(i, acc);
    BechEmbedIs(c);
    EvalNext(Bech32, 24 + i, n, c, acc, BechRoot(i, acc), BechEmbed(c));
  }

  lemma BechValueIs(i: nat, c: bv64)
    requires i < 3
    ensures Eval(Bech32, 24 + i, 6, Poly(c)) == Poly(BechValue(i, c))
  {
    hide Eval, BechNext, DownBits;
    var c1 := DownBits(c);
    var c2 := DownBits(c1);
    var c3 := DownBits(c2);
    var c4 := DownBits(c3);
    var c5 := DownBits(c4);
    EvalNone(Bech32, 24 + i, Poly(DownBits(c5)));
    BechNextIs(i, 0, c5, 0);
    var v5 := BechNext(i, 0, c5);
    BechNextIs(i, 1, c4, v5);
    var v4 := BechNext(i, v5, c4);
    BechNextIs(i, 2, c3, v4);
    var v3 := BechNext(i, v4, c3);
    BechNextIs(i, 3, c2, v3);
    var v2 := BechNext(i, v3, c2);
    BechNextIs(i, 4, c1, v2);
    var v1 := BechNext(i, v2, c1);
    BechNextIs(i, 5, c, v1);
  }

  lemma BechPowerIs(i: nat, z: bv64)
    requires i < 3
    ensures Turns(Bech32, Poly(z), 6 * (24 + i)) == Poly(BechPower(i, z))
  {
    hide Turns, BechRoot;
    var e := 24 + i;
    var a := BechRoot(i, z);
    var b := BechRoot(i, a);
    var c := BechRoot(i, b);
    var d := BechRoot(i, c);
    BechRoots(i, z);
    BechRoots(i, a);
    BechRoots(i, b);
    BechRoots(i, c);
    BechRoots(i, d);
    BechRoots(i, BechRoot(i, d));
    TurnsAdd(Bech32, Poly(z), e, 5 * e);
    TurnsAdd(Bech32, Poly(a), e, 4 * e);
    TurnsAdd(Bech32, Poly(b), e, 3 * e);
    TurnsAdd(Bech32, Poly(c), e, 2 * e);
    TurnsAdd(Bech32, Poly(d), e, e);
  }

  lemma BechCheck0a()
    ensures BechValue(0, 0x3b6a57b2) == 0x2ba && BechPower(0, 0x1) == 0x2ba
    ensures BechValue(0, 0x26508e6d) == 0x1a5 && BechPower(0, 0xe) == 0x1a5
  {
  }

  lemma BechCheck0b()
    ensures BechValue(0, 0x1ea119fa) == 0x2b0 && BechPower(0, 0x54) == 0x2b0
    ensures BechValue(0, 0x3d4233dd) == 0x1c9 && BechPower(0, 0x358) == 0x1c9
  {
  }

  lemma BechCheck0c()
    ensures BechValue(0, 0x2a1462b3) == 0xb8 && BechPower(0, 0xbf) == 0xb8
  {
  }

  lemma BechCheck1a()
    ensures BechValue(1, 0x3b6a57b2) == 0xa6 && BechPower(1, 0x1) == 0xa6
    ensures BechValue(1, 0x26508e6d) == 0x3c7 && BechPower(1, 0xe) == 0x3c7
  {
  }

  lemma BechCheck1b()
    ensures BechValue(1, 0x1ea119fa) == 0x226 && BechPower(1, 0x54) == 0x226
    ensures BechValue(1, 0x3d4233dd) == 0x32e && BechPower(1, 0x358) == 0x32e
  {
  }

  lemma BechCheck1c()
    ensures BechValue(1, 0x2a1462b3) == 0x23b && BechPower(1, 0xbf) == 0x23b
  {
  }

  lemma BechCheck2a()
    ensures BechValue(2, 0x3b6a57b2) == 0x98 && BechPower(2, 0x1) == 0x98
    ensures BechValue(2, 0x26508e6d) == 0x2b3 && BechPower(2, 0xe) == 0x2b3
  {
  }

  lemma BechCheck2b()
    ensures BechValue(2, 0x1ea119fa) == 0x1db && BechPower(2, 0x54) == 0x1db
    ensures BechValue(2, 0x3d4233dd) == 0x44 && BechPower(2, 0x358) == 0x44
  {
  }

  lemma BechCheck2c()
    ensures BechValue(2, 0x2a1462b3) == 0x3b8 && BechPower(2, 0xbf) == 0x3b8
  {
  }

  function BlechNext(i: nat, acc: bv64, s: bv64): bv64 {
    Both(BlechRoot(i, acc), BlechEmbed(s))
  }

  /** The value of a state at root i. */
  function BlechValue(i: nat, c: bv64): bv64 {
    var c1 := DownBits(c);
    var c2 := DownBits(c1);
    var c3 := DownBits(c2);
    var c4 := DownBits(c3);
    var c5 := DownBits(c4);
    var c6 := DownBits(c5);
    var c7 := DownBits(c6);
    var c8 := DownBits(c7);
    var c9 := DownBits(c8);
    var c10 := DownBits(c9);
    var c11 := DownBits(c10);
    var top := BlechNext(i, BlechNext(i, BlechNext(i, BlechNext(i, 0, c11), c10), c9), c8);
    var mid := BlechNext(i, BlechNext(i, BlechNext(i, BlechNext(i, top, c7), c6), c5), c4);
    BlechNext(i, BlechNext(i, BlechNext(i, BlechNext(i, mid, c3), c2), c1), c)
  }

  function BlechPower(i: nat, z: bv64): bv64 {
    BlechRoot(i, BlechRoot(i, BlechRoot(i, BlechRoot(i, BlechRoot(i, BlechRoot(i, z))))))
  }

  lemma BlechNextIs(i: nat, n: nat, c: bv64, acc: bv64)
    requires i < 3 && Eval(Blech32, 1 + i, n, Poly(DownBits(c))) == Poly(acc)
    ensures Eval(Blech32, 1 + i, n + 1, Poly(c)) == Poly(BlechNext(i, acc, c))
  {
    hide Eval, Turns, Embed, Both, DownBits, BlechRoot, BlechEmbed;
    BlechRoots(i, acc);
    BlechEmbedIs(c);
    EvalNext(Blech32, 1 + i, n, c, acc, BlechRoot(i, acc), BlechEmbed(c));
  }

  lemma BlechValueIs(i: nat, c: bv64)
    requires i < 3
    ensures Eval(Blech32, 1 + i, 12, Poly(c)) == Poly(BlechValue(i, c))
  {
    hide Eval, BlechNext, DownBits;
    var c1 := DownBits(c);
    var c2 := DownBits(c1);
    var c3 := DownBits(c2);
    var c4 := DownBits(c3);
    var c5 := DownBits(c4);
    var c6 := DownBits(c5);
    var c7 := DownBits(c6);
    var c8 := DownBits(c7);
    var c9 := DownBits(c8);
    var c10 := DownBits(c9);
    var c11 := DownBits(c10);
    EvalNone(Blech32, 1 + i, Poly(DownBits(c11)));
    BlechNextIs(i, 0, c11, 0);
    var v11 := BlechNext(i, 0, c11);
    BlechNextIs(i, 1, c10, v11);
    var v10 := BlechNext(i, v11, c10);
    BlechNextIs(i, 2, c9, v10);
    var v9 := BlechNext(i, v10, c9);
    BlechNextIs(i, 3, c8, v9);
    var v8 := BlechNext(i, v9, c8);
    BlechNextIs(i, 4, c7, v8);
    var v7 := BlechNext(i, v8, c7);
    BlechNextIs(i, 5, c6, v7);
    var v6 := BlechNext(i, v7, c6);
    BlechNextIs(i, 6, c5, v6);
    var v5 := BlechNext(i, v6, c5);
    BlechNextIs(i, 7, c4, v5);
    var v4 := BlechNext(i, v5, c4);
    BlechNextIs(i, 8, c3, v4);
    var v3 := BlechNext(i, v4, c3);
    BlechNextIs(i, 9, c2, v3);
    var v2 := BlechNext(i, v3, c2);
    BlechNextIs(i, 10, c1, v2);
    var v1 := BlechNext(i, v2, c1);
    BlechNextIs(i, 11, c, v1);
  }

  lemma BlechPowerIs(i: nat, z: bv64)
    requires i < 3
    ensures Turns(Blech32, Poly(z), 6 * (1 + i)) == Poly(BlechPower(i, z))
  {
    hide Turns, BlechRoot;
    var e := 1 + i;
    var a := BlechRoot(i, z);
    var b := BlechRoot(i, a);
    var c := BlechRoot(i, b);
    var d := BlechRoot(i, c);
    BlechRoots(i, z);
    BlechRoots(i, a);
    BlechRoots(i, b);
    BlechRoots(i, c);
    BlechRoots(i, d);
    BlechRoots(i, BlechRoot(i, d));
    TurnsAdd(Blech32, Poly(z), e, 5 * e);
    TurnsAdd(Blech32, Poly(a), e, 4 * e);
    TurnsAdd(Blech32, Poly(b), e, 3 * e);
    TurnsAdd(Blech32, Poly(c), e, 2 * e);
    TurnsAdd(Blech32, Poly(d), e, e);
  }

  lemma BlechCheck0a()
    ensures BlechValue(0, 0x7d52fba40bd886) == 0x24e && BlechPower(0, BlechPower(0, 0x1)) == 0x24e
    ensures BlechValue(0, 0x5e8dbf1a03950c) == 0x1d0 && BlechPower(0, BlechPower(0, 0x7)) == 0x1d0
    ensures BlechValue(0, 0x1c3a3c74072a18) == 0x22d && BlechPower(0, BlechPower(0, 0x15)) == 0x22d
  {
  }

  lemma BlechCheck0b()
    ensures BlechValue(0, 0x385d72fa0e5139) == 0xf9 && BlechPower(0, BlechPower(0, 0x6b)) == 0xf9
    ensures BlechValue(0, 0x7093e5a608865b) == 0x2ef && BlechPower(0, BlechPower(0, 0x111)) == 0x2ef
  {
  }

  lemma BlechCheck1a()
    ensures BlechValue(1, 0x7d52fba40bd886) == 0x3ea && BlechPower(1, BlechPower(1, 0x1)) == 0x3ea
    ensures BlechValue(1, 0x5e8dbf1a03950c) == 0x2b1 && BlechPower(1, BlechPower(1, 0x7)) == 0x2b1
    ensures BlechValue(1, 0x1c3a3c74072a18) == 0x32d && BlechPower(1, BlechPower(1, 0x15)) == 0x32d
  {
  }

  lemma BlechCheck1b()
    ensures BlechValue(1, 0x385d72fa0e5139) == 0xe4 && BlechPower(1, BlechPower(1, 0x6b)) == 0xe4
    ensures BlechValue(1, 0x7093e5a608865b) == 0x2bc && BlechPower(1, BlechPower(1, 0x111)) == 0x2bc
  {
  }

  lemma BlechCheck2a()
    ensures BlechValue(2, 0x7d52fba40bd886) == 0x30 && BlechPower(2, BlechPower(2, 0x1)) == 0x30
    ensures BlechValue(2, 0x5e8dbf1a03950c) == 0x90 && BlechPower(2, BlechPower(2, 0x7)) == 0x90
    ensures BlechValue(2, 0x1c3a3c74072a18) == 0x3f0 && BlechPower(2, BlechPower(2, 0x15)) == 0x3f0
  {
  }

  lemma BlechCheck2b()
    ensures BlechValue(2, 0x385d72fa0e5139) == 0x2f7 && BlechPower(2, BlechPower(2, 0x6b)) == 0x2f7
    ensures BlechValue(2, 0x7093e5a608865b) == 0x2ff && BlechPower(2, BlechPower(2, 0x111)) == 0x2ff
  {
  }

  lemma BechAtRoot(i: nat, g: bv64, k: bv64)
    requires i < 3 && BechValue(i, g) == BechPower(i, k)
    ensures Eval(Bech32, 24 + i, 6, Poly(g)) == Turns(Bech32, Poly(k), 6 * (24 + i))
  {
    hide Eval, Turns, BechValue, BechPower;
    BechValueIs(i, g);
    BechPowerIs(i, k);
  }

  lemma BechChecked(i: nat)
    requires i < 3
    ensures BechValue(i, 0x3b6a57b2) == BechPower(i, 0x1)
    ensures BechValue(i, 0x26508e6d) == BechPower(i, 0xe)
    ensures BechValue(i, 0x1ea119fa) == BechPower(i, 0x54)
    ensures BechValue(i, 0x3d4233dd) == BechPower(i, 0x358)
    ensures BechValue(i, 0x2a1462b3) == BechPower(i, 0xbf)
  {
    hide BechValue, BechPower;
    if i == 0 {
      BechCheck0a();
      BechCheck0b();
      BechCheck0c();
    } else if i == 1 {
      BechCheck1a();
      BechCheck1b();
      BechCheck1c();
    } else {
      BechCheck2a();
      BechCheck2b();
      BechCheck2c();
    }
  }

  lemma BechAtRoots(i: nat)
    requires i < 3
    ensures Eval(Bech32, 24 + i, 6, Generator(Bech32, 1)) == Turns(Bech32, Image(Bech32, 1), 6 * (24 + i))
    ensures Eval(Bech32, 24 + i, 6, Generator(Bech32, 2)) == Turns(Bech32, Image(Bech32, 2), 6 * (24 + i))
    ensures Eval(Bech32, 24 + i, 6, Generator(Bech32, 4)) == Turns(Bech32, Image(Bech32, 4), 6 * (24 + i))
    ensures Eval(Bech32, 24 + i, 6, Generator(Bech32, 8)) == Turns(Bech32, Image(Bech32, 8), 6 * (24 + i))
    ensures Eval(Bech32, 24 + i, 6, Generator(Bech32, 16)) == Turns(Bech32, Image(Bech32, 16), 6 * (24 + i))
  {
    hide Eval, Turns, BechValue, BechPower;
    BechChecked(i);
    BechAtRoot(i, 0x3b6a57b2, 0x1);
    BechAtRoot(i, 0x26508e6d, 0xe);
    BechAtRoot(i, 0x1ea119fa, 0x54);
    BechAtRoot(i, 0x3d4233dd, 0x358);
    BechAtRoot(i, 0x2a1462b3, 0xbf);
  }

  lemma BlechAtRoot(i: nat, g: bv64, k: bv64)
    requires i < 3 && BlechValue(i, g) == BlechPower(i, BlechPower(i, k))
    ensures Eval(Blech32, 1 + i, 12, Poly(g)) == Turns(Blech32, Poly(k), 12 * (1 + i))
  {
    hide Eval, Turns, BlechValue, BlechPower;
    BlechValueIs(i, g);
    BlechPowerIs(i, k);
    BlechPowerIs(i, BlechPower(i, k));
    TurnsAdd(Blech32, Poly(k), 6 * (1 + i), 6 * (1 + i));
  }

  lemma BlechChecked(i: nat)
    requires i < 3
    ensures BlechValue(i, 0x7d52fba40bd886) == BlechPower(i, BlechPower(i, 0x1))
    ensures BlechValue(i, 0x5e8dbf1a03950c) == BlechPower(i, BlechPower(i, 0x7))
    ensures BlechValue(i, 0x1c3a3c74072a18) == BlechPower(i, BlechPower(i, 0x15))
    ensures BlechValue(i, 0x385d72fa0e5139) == BlechPower(i, BlechPower(i, 0x6b))
    ensures BlechValue(i, 0x7093e5a608865b) == BlechPower(i, BlechPower(i, 0x111))
  {
    hide BlechValue, BlechPower;
    if i == 0 {
      BlechCheck0a();
      BlechCheck0b();
    } else if i == 1 {
      BlechCheck1a();
      BlechCheck1b();
    } else {
      BlechCheck2a();
      BlechCheck2b();
    }
  }

  lemma BlechAtRoots(i: nat)
    requires i < 3
    ensures Eval(Blech32, 1 + i, 12, Generator(Blech32, 1)) == Turns(Blech32, Image(Blech32, 1), 12 * (1 + i))
    ensures Eval(Blech32, 1 + i, 12, Generator(Blech32, 2)) == Turns(Blech32, Image(Blech32, 2), 12 * (1 + i))
    ensures Eval(Blech32, 1 + i, 12, Generator(Blech32, 4)) == Turns(Blech32, Image(Blech32, 4), 12 * (1 + i))
    ensures Eval(Blech32, 1 + i, 12, Generator(Blech32, 8)) == Turns(Blech32, Image(Blech32, 8), 12 * (1 + i))
    ensures Eval(Blech32, 1 + i, 12, Generator(Blech32, 16)) == Turns(Blech32, Image(Blech32, 16), 12 * (1 + i))
  {
    hide Eval, Turns, BlechValue, BlechPower;
    BlechChecked(i);
    BlechAtRoot(i, 0x7d52fba40bd886, 0x1);
    BlechAtRoot(i, 0x5e8dbf1a03950c, 0x7);
    BlechAtRoot(i, 0x1c3a3c74072a18, 0x15);
    BlechAtRoot(i, 0x385d72fa0e5139, 0x6b);
    BlechAtRoot(i, 0x7093e5a608865b, 0x111);
  }

  /** The exponent of the first root. */
  function FirstRoot(code: Code): nat {
    if code.Bech32? then 24 else 1
  }

  /** The generator, in each of its multiples, has the root: x^n is what the rest says it is. */
  lemma GeneratorAtRoot(code: Code, i: nat, mask: bv64)
    requires i < 3 && (mask == 1 || mask == 2 || mask == 4 || mask == 8 || mask == 16)
    ensures var e, n := FirstRoot(code) + i, Length(code);
      Eval(code, e, n, Generator(code, mask)) == Turns(code, Image(code, mask), n * e)
  {
    hide Eval, Turns, Generator, Image;
    if code.Bech32? {
      BechAtRoots(i);
    } else {
      BlechAtRoots(i);
    }
  }

  lemma EvalWhen(code: Code, e: nat, n: nat, p: bool, g: Poly)
    ensures Eval(code, e, n, When(p, g)) == When(p, Eval(code, e, n, g))
  {
    hide Eval;
    EvalZero(code, e, n);
  }

  lemma {:induction false} EvalZero(code: Code, e: nat, n: nat)
    ensures Eval(code, e, n, ZERO) == ZERO
    decreases n
  {
    hide Turns, Embed, Xor, High;
    if n > 0 {
      HighZero();
      EvalZero(code, e, n - 1);
      TurnsZero(code, e);
      EmbedZero(code);
      XorZero(ZERO);
    }
  }

  lemma HighZero()
    ensures High(ZERO) == ZERO
  {
  }

  lemma PartAtRoot(code: Code, i: nat, t: Poly, mask: bv64)
    requires i < 3 && (mask == 1 || mask == 2 || mask == 4 || mask == 8 || mask == 16)
    ensures var e, n := FirstRoot(code) + i, Length(code);
      Eval(code, e, n, Part(code, t, mask)) == Turns(code, Spot(code, t, mask), n * e)
  {
    hide Eval, Turns, Generator, Image, Bit;
    var e, n := FirstRoot(code) + i, Length(code);
    GeneratorAtRoot(code, i, mask);
    EvalWhen(code, e, n, Bit(t, mask), Generator(code, mask));
    TurnsZero(code, n * e);
  }

  lemma EvalSum(code: Code, e: nat, n: nat, p1: Poly, p2: Poly, p4: Poly, p8: Poly, p16: Poly)
    ensures Eval(code, e, n, Xor(p1, Xor(p2, Xor(p4, Xor(p8, p16))))) ==
      Xor(Eval(code, e, n, p1), Xor(Eval(code, e, n, p2), Xor(Eval(code, e, n, p4),
        Xor(Eval(code, e, n, p8), Eval(code, e, n, p16)))))
  {
    hide Eval, Xor;
    EvalLinear(code, e, n, p8, p16);
    EvalLinear(code, e, n, p4, Xor(p8, p16));
    EvalLinear(code, e, n, p2, Xor(p4, Xor(p8, p16)));
    EvalLinear(code, e, n, p1, Xor(p2, Xor(p4, Xor(p8, p16))));
  }

  lemma TurnsSum(code: Code, n: nat, p1: Poly, p2: Poly, p4: Poly, p8: Poly, p16: Poly)
    ensures Turns(code, Xor(p1, Xor(p2, Xor(p4, Xor(p8, p16)))), n) ==
      Xor(Turns(code, p1, n), Xor(Turns(code, p2, n), Xor(Turns(code, p4, n),
        Xor(Turns(code, p8, n), Turns(code, p16, n)))))
  {
    hide Turns, Xor;
    TurnsLinear(code, p8, p16, n);
    TurnsLinear(code, p4, Xor(p8, p16), n);
    TurnsLinear(code, p2, Xor(p4, Xor(p8, p16)), n);
    TurnsLinear(code, p1, Xor(p2, Xor(p4, Xor(p8, p16))), n);
  }

  lemma ReduceAtRoot(code: Code, i: nat, t: Poly)
    requires i < 3
    ensures var e, n := FirstRoot(code) + i, Length(code);
      Eval(code, e, n, Reduce(code, t)) == Turns(code, Embed(code, t), n * e)
  {
    hide Eval, Turns, Xor, Part, Spot;
    var e, n := FirstRoot(code) + i, Length(code);
    PartAtRoot(code, i, t, 1);
    PartAtRoot(code, i, t, 2);
    PartAtRoot(code, i, t, 4);
    PartAtRoot(code, i, t, 8);
    PartAtRoot(code, i, t, 16);
    EvalSum(code, e, n, Part(code, t, 1), Part(code, t, 2), Part(code, t, 4), Part(code, t, 8), Part(code, t, 16));
    TurnsSum(code, n * e, Spot(code, t, 1), Spot(code, t, 2), Spot(code, t, 4), Spot(code, t, 8), Spot(code, t, 16));
  }

  // ----- What feeding does to the values -----

  /** The value of a state at root i. */
  function At(code: Code, i: nat, c: Poly): Poly {
    Eval(code, FirstRoot(code) + i, Length(code), c)
  }

  lemma AtStep(code: Code, i: nat, c: Poly)
    requires i < 3 && Fits(c, Length(code))
    ensures At(code, i, Step(code, c, 0)) == Turns(code, At(code, i, c), FirstRoot(code) + i)
  {
    hide Eval, Turns, Xor, Reduce, Moved, Top, Rest, Lift, Fits, Step, Embed, Up;
    var e, n := FirstRoot(code) + i, Length(code);
    var r, t := Rest(code, c), Top(code, c);
    Apart(code, c);
    TopSmall(code, c);
    // The state before the step.
    EvalLinear(code, e, n, r, Lift(t, n - 1));
    EvalLonger(code, e, n - 1, r);
    EvalLift(code, e, t, n - 1);
    var low, high := Eval(code, e, n - 1, r), Turns(code, Embed(code, t), e * (n - 1));
    TurnsLinear(code, low, high, e);
    TurnsAdd(code, Embed(code, t), e * (n - 1), e);
    assert e * (n - 1) + e == n * e;
    // The state after it.
    StepParts(code, c);
    EvalLinear(code, e, n, Up(r), Reduce(code, t));
    AppendZero(r);
    MoreFits(r, n - 1);
    EvalAppend(code, e, n - 1, r, 0);
    EmbedZeroSymbol(code);
    XorZero(Turns(code, low, e));
    ReduceAtRoot(code, i, t);
  }

  lemma StepParts(code: Code, c: Poly)
    ensures Step(code, c, 0) == Xor(Moved(code, c), Reduce(code, Top(code, c)))
  {
    hide Xor, Moved, Reduce, Top, OfSymbol;
    ZeroSymbol();
    XorZero(Moved(code, c));
  }

  /** The state after n zeros. */
  function Walk(code: Code, c: Poly, n: nat): Poly
    decreases n
  {
    if n == 0 then c else Step(code, Walk(code, c, n - 1), 0)
  }

  function Product(a: nat, b: nat): nat {
    a * b
  }

  lemma ProductAdd(a: nat, b: nat, c: nat)
    ensures Product(a, b + c) == Product(a, b) + Product(a, c)
    ensures Product(b + c, a) == Product(b, a) + Product(c, a)
    ensures Product(a, 1) == a == Product(1, a) && Product(a, 0) == 0 == Product(0, a)
  {
  }

  lemma {:induction false} AtWalk(code: Code, i: nat, c: Poly, n: nat)
    requires i < 3 && Fits(c, Length(code))
    ensures Fits(Walk(code, c, n), Length(code))
    ensures At(code, i, Walk(code, c, n)) == Turns(code, At(code, i, c), Product(FirstRoot(code) + i, n))
    decreases n
  {
    hide At, Turns, Step, Fits, Product, FirstRoot;
    var e := FirstRoot(code) + i;
    if n == 0 {
      ProductAdd(e, 0, 0);
      NoTurns(code, At(code, i, c));
    } else {
      AtWalk(code, i, c, n - 1);
      AtStep(code, i, Walk(code, c, n - 1));
      StepFits(code, Walk(code, c, n - 1), 0);
      ProductAdd(e, n - 1, 1);
      TurnsAdd(code, At(code, i, c), Product(e, n - 1), e);
    }
  }

  /** A coefficient alone. */
  lemma AtSymbol(code: Code, i: nat, s: Poly)
    requires s.bits < 32
    ensures Fits(s, Length(code)) && At(code, i, s) == Embed(code, s)
  {
    hide Eval, Embed, Turns;
    var e := FirstRoot(code) + i;
    SymbolFits(s);
    EvalLift(code, e, s, 0);
    NoTurns(code, Embed(code, s));
    NotLifted(s);
    LongerFits(s, 1, Length(code));
    EvalLongest(code, e, s, Length(code));
  }

  lemma LongerFits(c: Poly, m: nat, n: nat)
    requires m <= n <= 12 && Fits(c, m)
    ensures Fits(c, n)
  {
  }

  lemma {:induction false} EvalLongest(code: Code, e: nat, c: Poly, n: nat)
    requires 1 <= n <= 12 && Fits(c, 1)
    ensures Eval(code, e, n, c) == Eval(code, e, 1, c)
    decreases n
  {
    hide Eval, Fits;
    if n > 1 {
      LongerFits(c, 1, n - 1);
      EvalLonger(code, e, n - 1, c);
      EvalLongest(code, e, c, n - 1);
    }
  }
}
