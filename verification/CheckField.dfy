/**
  The field with 1024 elements, as far as the distance of the codes needs it.

  An element packs ten bits: the coefficients of a polynomial in a primitive element. For
  either code that element is chosen so that three consecutive powers of it are roots of the
  generator. Turn multiplies by it; Embed places the 32 symbols among the elements.
*/
module CheckField {
  import opened CheckSymbols

  const ONE := Poly(1)

  function BechTurn(z: bv64): bv64 {
    ((z << 1) & 1023) ^ (((z >> 9) & 1) * 0x123)
  }

  function BlechTurn(z: bv64): bv64 {
    ((z << 1) & 1023) ^ (((z >> 9) & 1) * 0x31d)
  }

  function TurnBits(code: Code, z: bv64): bv64 {
    if code.Bech32? then BechTurn(z) else BlechTurn(z)
  }

  function Turn(code: Code, z: Poly): Poly {
    Poly(TurnBits(code, z.bits))
  }

  function Turns(code: Code, z: Poly, n: nat): Poly {
    if n == 0 then z else Turn(code, Turns(code, z, n - 1))
  }

  /** The elements. */
  predicate Element(z: Poly) {
    z.bits < 1024
  }

  // ----- Turning is linear and loses nothing -----

  lemma BechTurnKeeps(z: bv64)
    requires z < 1024
    ensures (((z << 1) & 1023) ^ (((z >> 9) & 1) * 0x123)) < 1024
    ensures (((z << 1) & 1023) ^ (((z >> 9) & 1) * 0x123)) == 0 ==> z == 0
    ensures ((((z >> 1) << 1) & 1023) ^ ((((z >> 1) >> 9) & 1) * 0x123)) ^ (z & 1) == z
  {
  }

  lemma BlechTurnKeeps(z: bv64)
    requires z < 1024
    ensures (((z << 1) & 1023) ^ (((z >> 9) & 1) * 0x31d)) < 1024
    ensures (((z << 1) & 1023) ^ (((z >> 9) & 1) * 0x31d)) == 0 ==> z == 0
    ensures ((((z >> 1) << 1) & 1023) ^ ((((z >> 1) >> 9) & 1) * 0x31d)) ^ (z & 1) == z
  {
  }

  function Shifted(z: Poly): Poly {
    Poly((z.bits << 1) & 1023)
  }

  function Wrapped(code: Code, z: Poly): Poly {
    Poly(((z.bits >> 9) & 1) * if code.Bech32? then 0x123 else 0x31d)
  }

  lemma TurnParts(code: Code, z: Poly)
    ensures Turn(code, z) == Xor(Shifted(z), Wrapped(code, z))
  {
  }

  lemma ShiftedLinear(a: Poly, b: Poly)
    ensures Shifted(Xor(a, b)) == Xor(Shifted(a), Shifted(b))
  {
  }

  lemma WrappedLinear(code: Code, a: Poly, b: Poly)
    ensures Wrapped(code, Xor(a, b)) == Xor(Wrapped(code, a), Wrapped(code, b))
  {
  }

  lemma TurnLinear(code: Code, a: Poly, b: Poly)
    ensures Turn(code, Xor(a, b)) == Xor(Turn(code, a), Turn(code, b))
  {
    hide Turn, Xor, Shifted, Wrapped;
    TurnParts(code, a);
    TurnParts(code, b);
    TurnParts(code, Xor(a, b));
    ShiftedLinear(a, b);
    WrappedLinear(code, a, b);
    Regroup(Shifted(a), Shifted(b), Wrapped(code, a), Wrapped(code, b));
  }

  lemma TurnKeeps(code: Code, z: Poly)
    requires Element(z)
    ensures Element(Turn(code, z)) && (Turn(code, z) == ZERO ==> z == ZERO)
  {
    if code.Bech32? {
      BechTurnKeeps(z.bits);
    } else {
      BlechTurnKeeps(z.bits);
    }
  }

  lemma TurnZero(code: Code)
    ensures Turn(code, ZERO) == ZERO
  {
  }

  lemma {:induction false} TurnsAdd(code: Code, z: Poly, m: nat, n: nat)
    ensures Turns(code, z, m + n) == Turns(code, Turns(code, z, m), n)
    decreases n
  {
    hide Turn;
    if n > 0 { TurnsAdd(code, z, m, n - 1); }
  }

  lemma {:induction false} TurnsLinear(code: Code, a: Poly, b: Poly, n: nat)
    ensures Turns(code, Xor(a, b), n) == Xor(Turns(code, a, n), Turns(code, b, n))
    decreases n
  {
    hide Turn, Xor;
    if n > 0 {
      TurnsLinear(code, a, b, n - 1);
      TurnLinear(code, Turns(code, a, n - 1), Turns(code, b, n - 1));
    }
  }

  lemma {:induction false} TurnsKeep(code: Code, z: Poly, n: nat)
    requires Element(z)
    ensures Element(Turns(code, z, n)) && (Turns(code, z, n) == ZERO ==> z == ZERO)
    decreases n
  {
    hide Turn;
    if n > 0 {
      TurnsKeep(code, z, n - 1);
      TurnKeeps(code, Turns(code, z, n - 1));
    }
  }

  lemma {:induction false} TurnsZero(code: Code, n: nat)
    ensures Turns(code, ZERO, n) == ZERO
    decreases n
  {
    hide Turn;
    TurnZero(code);
    if n > 0 { TurnsZero(code, n - 1); }
  }

  lemma TurnMoves(code: Code, z: Poly, n: nat)
    ensures Turns(code, Turn(code, z), n) == Turn(code, Turns(code, z, n))
  {
    hide Turn;
    TurnsAdd(code, z, 1, n);
    assert Turns(code, z, 1) == Turn(code, Turns(code, z, 0));
    assert Turns(code, z, n + 1) == Turn(code, Turns(code, z, n));
  }

  // ----- An identity that holds of one holds of every element -----

  function Half(z: Poly): Poly {
    Poly(z.bits >> 1)
  }

  function Odd(z: Poly): Poly {
    Poly(z.bits & 1)
  }

  lemma BechHalves(z: Poly)
    requires Element(z)
    ensures Xor(Turn(Bech32, Half(z)), Odd(z)) == z
  {
    BechTurnKeeps(z.bits);
  }

  lemma BlechHalves(z: Poly)
    requires Element(z)
    ensures Xor(Turn(Blech32, Half(z)), Odd(z)) == z
  {
    BlechTurnKeeps(z.bits);
  }

  lemma HalvesSmall(z: Poly)
    ensures Element(z) ==> Element(Half(z))
    ensures Odd(z) == ZERO || Odd(z) == ONE
  {
  }

  lemma Halves(code: Code, z: Poly)
    requires Element(z)
    ensures z == Xor(Turn(code, Half(z)), Odd(z)) && Element(Half(z)) && (Odd(z) == ZERO || Odd(z) == ONE)
  {
    hide Turn, Xor, Half, Odd, Element;
    HalvesSmall(z);
    if code.Bech32? {
      BechHalves(z);
    } else {
      BlechHalves(z);
    }
  }

  /** Nothing is left after n halvings. */
  predicate Small(z: Poly, n: nat)
    decreases n
  {
    if n == 0 then z == ZERO else Small(Half(z), n - 1)
  }

  lemma TenHalves(z: bv64)
    requires z < 1024
    ensures (((((((((z >> 1) >> 1) >> 1) >> 1) >> 1) >> 1) >> 1) >> 1) >> 1) >> 1 == 0
  {
  }

  lemma ElementSmall(z: Poly)
    requires Element(z)
    ensures Small(z, 10)
  {
    TenHalves(z.bits);
    var a, b, c := Half(z), Half(Half(z)), Half(Half(Half(z)));
    var d, e, f := Half(c), Half(Half(c)), Half(Half(Half(c)));
    var g, h, i := Half(f), Half(Half(f)), Half(Half(Half(f)));
    assert Small(Half(i), 0);
    assert Small(i, 1) && Small(h, 2) && Small(g, 3);
    assert Small(f, 4) && Small(e, 5) && Small(d, 6);
    assert Small(c, 7) && Small(b, 8) && Small(a, 9);
  }

  lemma {:induction false} SameTurns(code: Code, z: Poly, n: nat, j: nat)
    requires Element(z) && Small(z, n) && Turns(code, ONE, j) == ONE
    ensures Turns(code, z, j) == z
    decreases n
  {
    hide Turn, Xor, Element, Half, Odd, Turns;
    TurnsZero(code, j);
    if n > 0 {
      Halves(code, z);
      SameTurns(code, Half(z), n - 1, j);
      TurnsLinear(code, Turn(code, Half(z)), Odd(z), j);
      TurnMoves(code, Half(z), j);
    }
  }

  lemma {:induction false} OneMore(code: Code, z: Poly, n: nat, j: nat, l: nat)
    requires Element(z) && Small(z, n) && Xor(Turns(code, ONE, j), ONE) == Turns(code, ONE, l)
    ensures Xor(Turns(code, z, j), z) == Turns(code, z, l)
    decreases n
  {
    hide Turn, Xor, Element, Half, Odd, Turns;
    TurnsZero(code, j);
    TurnsZero(code, l);
    XorZero(ZERO);
    if n > 0 {
      Halves(code, z);
      var h, o := Half(z), Odd(z);
      OneMore(code, h, n - 1, j, l);
      TurnsLinear(code, Turn(code, h), o, j);
      TurnsLinear(code, Turn(code, h), o, l);
      TurnMoves(code, h, j);
      TurnMoves(code, h, l);
      Regroup(Turn(code, Turns(code, h, j)), Turns(code, o, j), Turn(code, h), o);
      TurnLinear(code, Turns(code, h, j), h);
    }
  }

  // ----- The powers of the primitive element -----

  function TurnBits5(code: Code, z: bv64): bv64 {
    TurnBits(code, TurnBits(code, TurnBits(code, TurnBits(code, TurnBits(code, z)))))
  }

  function TurnBits31(code: Code, z: bv64): bv64 {
    TurnBits(code, TurnBits5(code, TurnBits5(code, TurnBits5(code, TurnBits5(code, TurnBits5(code,
      TurnBits5(code, z)))))))
  }

  lemma TurnsBit(code: Code, z: bv64)
    ensures Turns(code, Poly(z), 1) == Poly(TurnBits(code, z))
  {
    hide TurnBits;
    assert Turns(code, Poly(z), 0) == Poly(z);
  }

  lemma Turns5(code: Code, z: bv64)
    ensures Turns(code, Poly(z), 5) == Poly(TurnBits5(code, z))
  {
    hide Turns, TurnBits;
    var a := TurnBits(code, z);
    var b := TurnBits(code, a);
    var c := TurnBits(code, b);
    TurnsBit(code, z);
    TurnsBit(code, a);
    TurnsBit(code, b);
    TurnsBit(code, c);
    TurnsBit(code, TurnBits(code, c));
    TurnsAdd(code, Poly(z), 1, 4);
    TurnsAdd(code, Poly(a), 1, 3);
    TurnsAdd(code, Poly(b), 1, 2);
    TurnsAdd(code, Poly(c), 1, 1);
  }

  lemma Turns31(code: Code, z: bv64)
    ensures Turns(code, Poly(z), 31) == Poly(TurnBits31(code, z))
  {
    hide Turns, TurnBits, TurnBits5;
    var a := TurnBits5(code, z);
    var b := TurnBits5(code, a);
    var c := TurnBits5(code, b);
    var d := TurnBits5(code, c);
    var e := TurnBits5(code, d);
    Turns5(code, z);
    Turns5(code, a);
    Turns5(code, b);
    Turns5(code, c);
    Turns5(code, d);
    Turns5(code, e);
    TurnsBit(code, TurnBits5(code, e));
    TurnsAdd(code, Poly(z), 5, 26);
    TurnsAdd(code, Poly(a), 5, 21);
    TurnsAdd(code, Poly(b), 5, 16);
    TurnsAdd(code, Poly(c), 5, 11);
    TurnsAdd(code, Poly(d), 5, 6);
    TurnsAdd(code, Poly(e), 5, 1);
  }

  lemma Further31(code: Code, n: nat, z: bv64, w: bv64)
    requires Turns(code, ONE, n) == Poly(z) && TurnBits31(code, z) == w
    ensures Turns(code, ONE, n + 31) == Poly(w)
  {
    hide Turns, TurnBits31;
    TurnsAdd(code, ONE, n, 31);
    Turns31(code, z);
  }

  lemma Further5(code: Code, n: nat, z: bv64, w: bv64)
    requires Turns(code, ONE, n) == Poly(z) && TurnBits5(code, z) == w
    ensures Turns(code, ONE, n + 5) == Poly(w)
  {
    hide Turns, TurnBits5;
    TurnsAdd(code, ONE, n, 5);
    Turns5(code, z);
  }

  lemma Further1(code: Code, n: nat, z: bv64, w: bv64)
    requires Turns(code, ONE, n) == Poly(z) && TurnBits(code, z) == w
    ensures Turns(code, ONE, n + 1) == Poly(w)
  {
    hide Turns, TurnBits;
    TurnsAdd(code, ONE, n, 1);
    TurnsBit(code, z);
  }

  lemma BechTurns1()
    ensures TurnBits31(Bech32, 0x1) == 0x2c
    ensures TurnBits(Bech32, 0x2c) == 0x58
    ensures TurnBits(Bech32, 0x58) == 0xb0
    ensures TurnBits31(Bech32, 0xb0) == 0xef
    ensures TurnBits5(Bech32, 0xef) == 0x32a
    ensures TurnBits5(Bech32, 0x32a) == 0xa2
    ensures TurnBits5(Bech32, 0xa2) == 0xcc
    ensures TurnBits5(Bech32, 0xcc) == 0x269
    ensures TurnBits5(Bech32, 0x269) == 0x1da
    ensures TurnBits(Bech32, 0x1da) == 0x3b4
    ensures TurnBits(Bech32, 0x3b4) == 0x24b
    ensures TurnBits(Bech32, 0x24b) == 0x1b5
    ensures TurnBits(Bech32, 0x1b5) == 0x36a
    ensures TurnBits31(Bech32, 0x36a) == 0x90
    ensures TurnBits31(Bech32, 0x90) == 0x4c
    ensures TurnBits31(Bech32, 0x4c) == 0x96
    ensures TurnBits31(Bech32, 0x96) == 0xa4
    ensures TurnBits31(Bech32, 0xa4) == 0x29f
  {
  }

  lemma BechTurns2()
    ensures TurnBits31(Bech32, 0x29f) == 0x19e
    ensures TurnBits31(Bech32, 0x19e) == 0x1ff
    ensures TurnBits31(Bech32, 0x1ff) == 0x36
    ensures TurnBits31(Bech32, 0x36) == 0x28b
    ensures TurnBits31(Bech32, 0x28b) == 0x3ee
    ensures TurnBits5(Bech32, 0x3ee) == 0x3cb
    ensures TurnBits5(Bech32, 0x3cb) == 0x248
    ensures TurnBits5(Bech32, 0x248) == 0xd9
    ensures TurnBits5(Bech32, 0xd9) == 0xc9
    ensures TurnBits(Bech32, 0xc9) == 0x192
    ensures TurnBits(Bech32, 0x192) == 0x324
    ensures TurnBits(Bech32, 0x324) == 0x36b
    ensures TurnBits(Bech32, 0x36b) == 0x3f5
    ensures TurnBits(Bech32, 0x3f5) == 0x2c9
    ensures TurnBits(Bech32, 0x2c9) == 0xb1
    ensures TurnBits31(Bech32, 0xb1) == 0xc3
    ensures TurnBits31(Bech32, 0xc3) == 0x3be
  {
  }

  lemma BechTurns3()
    ensures TurnBits31(Bech32, 0x3be) == 0x12a
    ensures TurnBits31(Bech32, 0x12a) == 0x1a0
    ensures TurnBits31(Bech32, 0x1a0) == 0x214
    ensures TurnBits31(Bech32, 0x214) == 0x206
    ensures TurnBits31(Bech32, 0x206) == 0x9e
    ensures TurnBits31(Bech32, 0x9e) == 0x1c4
    ensures TurnBits5(Bech32, 0x1c4) == 0x37
    ensures TurnBits31(Bech32, 0x37) == 0x2a7
    ensures TurnBits31(Bech32, 0x2a7) == 0x29d
  {
  }

  lemma BechTurns4()
    ensures TurnBits31(Bech32, 0x29d) == 0x1c6
    ensures TurnBits31(Bech32, 0x1c6) == 0x319
    ensures TurnBits31(Bech32, 0x319) == 0x3c1
    ensures TurnBits31(Bech32, 0x3c1) == 0x3ab
    ensures TurnBits31(Bech32, 0x3ab) == 0x376
    ensures TurnBits31(Bech32, 0x376) == 0x380
    ensures TurnBits31(Bech32, 0x380) == 0x2c1
    ensures TurnBits31(Bech32, 0x2c1) == 0x390
  {
  }

  lemma BechTurns5()
    ensures TurnBits31(Bech32, 0x390) == 0x1
  {
  }

  lemma BechReach248()
    ensures Turns(Bech32, ONE, 33) == Poly(0xb0)
    ensures Turns(Bech32, ONE, 93) == Poly(0x36a)
    ensures Turns(Bech32, ONE, 248) == Poly(0x29f)
  {
    hide Turns, TurnBits, TurnBits5, TurnBits31;
    NoTurn(Bech32);
    BechTurns1();
    Further31(Bech32, 0, 0x1, 0x2c);
    Further1(Bech32, 31, 0x2c, 0x58);
    Further1(Bech32, 32, 0x58, 0xb0);
    Further31(Bech32, 33, 0xb0, 0xef);
    Further5(Bech32, 64, 0xef, 0x32a);
    Further5(Bech32, 69, 0x32a, 0xa2);
    Further5(Bech32, 74, 0xa2, 0xcc);
    Further5(Bech32, 79, 0xcc, 0x269);
    Further5(Bech32, 84, 0x269, 0x1da);
    Further1(Bech32, 89, 0x1da, 0x3b4);
    Further1(Bech32, 90, 0x3b4, 0x24b);
    Further1(Bech32, 91, 0x24b, 0x1b5);
    Further1(Bech32, 92, 0x1b5, 0x36a);
    Further31(Bech32, 93, 0x36a, 0x90);
    Further31(Bech32, 124, 0x90, 0x4c);
    Further31(Bech32, 155, 0x4c, 0x96);
    Further31(Bech32, 186, 0x96, 0xa4);
    Further31(Bech32, 217, 0xa4, 0x29f);
  }

  lemma BechReach491()
    requires Turns(Bech32, ONE, 248) == Poly(0x29f)
    ensures Turns(Bech32, ONE, 341) == Poly(0x36)
    ensures Turns(Bech32, ONE, 426) == Poly(0x36b)
    ensures Turns(Bech32, ONE, 429) == Poly(0xb1)
    ensures Turns(Bech32, ONE, 491) == Poly(0x3be)
  {
    hide Turns, TurnBits, TurnBits5, TurnBits31;
    BechTurns2();
    Further31(Bech32, 248, 0x29f, 0x19e);
    Further31(Bech32, 279, 0x19e, 0x1ff);
    Further31(Bech32, 310, 0x1ff, 0x36);
    Further31(Bech32, 341, 0x36, 0x28b);
    Further31(Bech32, 372, 0x28b, 0x3ee);
    Further5(Bech32, 403, 0x3ee, 0x3cb);
    Further5(Bech32, 408, 0x3cb, 0x248);
    Further5(Bech32, 413, 0x248, 0xd9);
    Further5(Bech32, 418, 0xd9, 0xc9);
    Further1(Bech32, 423, 0xc9, 0x192);
    Further1(Bech32, 424, 0x192, 0x324);
    Further1(Bech32, 425, 0x324, 0x36b);
    Further1(Bech32, 426, 0x36b, 0x3f5);
    Further1(Bech32, 427, 0x3f5, 0x2c9);
    Further1(Bech32, 428, 0x2c9, 0xb1);
    Further31(Bech32, 429, 0xb1, 0xc3);
    Further31(Bech32, 460, 0xc3, 0x3be);
  }

  lemma BechReach744()
    requires Turns(Bech32, ONE, 491) == Poly(0x3be)
    ensures Turns(Bech32, ONE, 682) == Poly(0x37)
    ensures Turns(Bech32, ONE, 744) == Poly(0x29d)
  {
    hide Turns, TurnBits, TurnBits5, TurnBits31;
    BechTurns3();
    Further31(Bech32, 491, 0x3be, 0x12a);
    Further31(Bech32, 522, 0x12a, 0x1a0);
    Further31(Bech32, 553, 0x1a0, 0x214);
    Further31(Bech32, 584, 0x214, 0x206);
    Further31(Bech32, 615, 0x206, 0x9e);
    Further31(Bech32, 646, 0x9e, 0x1c4);
    Further5(Bech32, 677, 0x1c4, 0x37);
    Further31(Bech32, 682, 0x37, 0x2a7);
    Further31(Bech32, 713, 0x2a7, 0x29d);
  }

  lemma BechReach992()
    requires Turns(Bech32, ONE, 744) == Poly(0x29d)
    ensures Turns(Bech32, ONE, 992) == Poly(0x390)
  {
    hide Turns, TurnBits, TurnBits5, TurnBits31;
    BechTurns4();
    Further31(Bech32, 744, 0x29d, 0x1c6);
    Further31(Bech32, 775, 0x1c6, 0x319);
    Further31(Bech32, 806, 0x319, 0x3c1);
    Further31(Bech32, 837, 0x3c1, 0x3ab);
    Further31(Bech32, 868, 0x3ab, 0x376);
    Further31(Bech32, 899, 0x376, 0x380);
    Further31(Bech32, 930, 0x380, 0x2c1);
    Further31(Bech32, 961, 0x2c1, 0x390);
  }

  lemma BechReach1023()
    requires Turns(Bech32, ONE, 992) == Poly(0x390)
    ensures Turns(Bech32, ONE, 1023) == Poly(0x1)
  {
    hide Turns, TurnBits, TurnBits5, TurnBits31;
    BechTurns5();
    Further31(Bech32, 992, 0x390, 0x1);
  }

  lemma BlechTurns1()
    ensures TurnBits31(Blech32, 0x1) == 0x38f
    ensures TurnBits(Blech32, 0x38f) == 0x3
    ensures TurnBits(Blech32, 0x3) == 0x6
    ensures TurnBits31(Blech32, 0x6) == 0x5
    ensures TurnBits5(Blech32, 0x5) == 0xa0
    ensures TurnBits5(Blech32, 0xa0) == 0x153
    ensures TurnBits5(Blech32, 0x153) == 0xc6
    ensures TurnBits5(Blech32, 0xc6) == 0x3a9
    ensures TurnBits5(Blech32, 0x3a9) == 0x3ed
    ensures TurnBits(Blech32, 0x3ed) == 0xc7
    ensures TurnBits(Blech32, 0xc7) == 0x18e
    ensures TurnBits(Blech32, 0x18e) == 0x31c
    ensures TurnBits(Blech32, 0x31c) == 0x125
    ensures TurnBits31(Blech32, 0x125) == 0x239
    ensures TurnBits31(Blech32, 0x239) == 0xab
    ensures TurnBits31(Blech32, 0xab) == 0x370
    ensures TurnBits31(Blech32, 0x370) == 0x2c8
    ensures TurnBits31(Blech32, 0x2c8) == 0x3ac
  {
  }

  lemma BlechTurns2()
    ensures TurnBits31(Blech32, 0x3ac) == 0x27a
    ensures TurnBits31(Blech32, 0x27a) == 0x347
    ensures TurnBits31(Blech32, 0x347) == 0x16a
    ensures TurnBits31(Blech32, 0x16a) == 0x1df
    ensures TurnBits31(Blech32, 0x1df) == 0x2be
    ensures TurnBits31(Blech32, 0x2be) == 0x3e1
    ensures TurnBits31(Blech32, 0x3e1) == 0x19f
    ensures TurnBits31(Blech32, 0x19f) == 0x2de
  {
  }

  lemma BlechTurns3()
    ensures TurnBits31(Blech32, 0x2de) == 0x3b1
    ensures TurnBits31(Blech32, 0x3b1) == 0x1e7
    ensures TurnBits31(Blech32, 0x1e7) == 0x29a
    ensures TurnBits31(Blech32, 0x29a) == 0x3d7
    ensures TurnBits31(Blech32, 0x3d7) == 0x1b2
    ensures TurnBits5(Blech32, 0x1b2) == 0x92
    ensures TurnBits(Blech32, 0x92) == 0x124
    ensures TurnBits(Blech32, 0x124) == 0x248
    ensures TurnBits(Blech32, 0x248) == 0x38d
    ensures TurnBits(Blech32, 0x38d) == 0x7
    ensures TurnBits5(Blech32, 0x7) == 0xe0
    ensures TurnBits5(Blech32, 0xe0) == 0x74
    ensures TurnBits5(Blech32, 0x74) == 0xba
    ensures TurnBits5(Blech32, 0xba) == 0x213
    ensures TurnBits(Blech32, 0x213) == 0x33b
    ensures TurnBits(Blech32, 0x33b) == 0x16b
    ensures TurnBits31(Blech32, 0x16b) == 0x250
    ensures TurnBits31(Blech32, 0x250) == 0x378
  {
  }

  lemma BlechTurns4()
    ensures TurnBits31(Blech32, 0x378) == 0x2c4
    ensures TurnBits31(Blech32, 0x2c4) == 0x3a6
    ensures TurnBits31(Blech32, 0x3a6) == 0x275
    ensures TurnBits31(Blech32, 0x275) == 0xc1
    ensures TurnBits31(Blech32, 0xc1) == 0x32f
    ensures TurnBits31(Blech32, 0x32f) == 0x136
    ensures TurnBits31(Blech32, 0x136) == 0x1ad
    ensures TurnBits31(Blech32, 0x1ad) == 0x2f5
  {
  }

  lemma BlechTurns5()
    ensures TurnBits31(Blech32, 0x2f5) == 0x1
  {
  }

  lemma BlechReach248()
    ensures Turns(Blech32, ONE, 33) == Poly(0x6)
    ensures Turns(Blech32, ONE, 93) == Poly(0x125)
    ensures Turns(Blech32, ONE, 248) == Poly(0x3ac)
  {
    hide Turns, TurnBits, TurnBits5, TurnBits31;
    NoTurn(Blech32);
    BlechTurns1();
    Further31(Blech32, 0, 0x1, 0x38f);
    Further1(Blech32, 31, 0x38f, 0x3);
    Further1(Blech32, 32, 0x3, 0x6);
    Further31(Blech32, 33, 0x6, 0x5);
    Further5(Blech32, 64, 0x5, 0xa0);
    Further5(Blech32, 69, 0xa0, 0x153);
    Further5(Blech32, 74, 0x153, 0xc6);
    Further5(Blech32, 79, 0xc6, 0x3a9);
    Further5(Blech32, 84, 0x3a9, 0x3ed);
    Further1(Blech32, 89, 0x3ed, 0xc7);
    Further1(Blech32, 90, 0xc7, 0x18e);
    Further1(Blech32, 91, 0x18e, 0x31c);
    Further1(Blech32, 92, 0x31c, 0x125);
    Further31(Blech32, 93, 0x125, 0x239);
    Further31(Blech32, 124, 0x239, 0xab);
    Further31(Blech32, 155, 0xab, 0x370);
    Further31(Blech32, 186, 0x370, 0x2c8);
    Further31(Blech32, 217, 0x2c8, 0x3ac);
  }

  lemma BlechReach496()
    requires Turns(Blech32, ONE, 248) == Poly(0x3ac)
    ensures Turns(Blech32, ONE, 341) == Poly(0x16a)
    ensures Turns(Blech32, ONE, 496) == Poly(0x2de)
  {
    hide Turns, TurnBits, TurnBits5, TurnBits31;
    BlechTurns2();
    Further31(Blech32, 248, 0x3ac, 0x27a);
    Further31(Blech32, 279, 0x27a, 0x347);
    Further31(Blech32, 310, 0x347, 0x16a);
    Further31(Blech32, 341, 0x16a, 0x1df);
    Further31(Blech32, 372, 0x1df, 0x2be);
    Further31(Blech32, 403, 0x2be, 0x3e1);
    Further31(Blech32, 434, 0x3e1, 0x19f);
    Further31(Blech32, 465, 0x19f, 0x2de);
  }

  lemma BlechReach744()
    requires Turns(Blech32, ONE, 496) == Poly(0x2de)
    ensures Turns(Blech32, ONE, 657) == Poly(0x124)
    ensures Turns(Blech32, ONE, 660) == Poly(0x7)
    ensures Turns(Blech32, ONE, 682) == Poly(0x16b)
    ensures Turns(Blech32, ONE, 744) == Poly(0x378)
  {
    hide Turns, TurnBits, TurnBits5, TurnBits31;
    BlechTurns3();
    Further31(Blech32, 496, 0x2de, 0x3b1);
    Further31(Blech32, 527, 0x3b1, 0x1e7);
    Further31(Blech32, 558, 0x1e7, 0x29a);
    Further31(Blech32, 589, 0x29a, 0x3d7);
    Further31(Blech32, 620, 0x3d7, 0x1b2);
    Further5(Blech32, 651, 0x1b2, 0x92);
    Further1(Blech32, 656, 0x92, 0x124);
    Further1(Blech32, 657, 0x124, 0x248);
    Further1(Blech32, 658, 0x248, 0x38d);
    Further1(Blech32, 659, 0x38d, 0x7);
    Further5(Blech32, 660, 0x7, 0xe0);
    Further5(Blech32, 665, 0xe0, 0x74);
    Further5(Blech32, 670, 0x74, 0xba);
    Further5(Blech32, 675, 0xba, 0x213);
    Further1(Blech32, 680, 0x213, 0x33b);
    Further1(Blech32, 681, 0x33b, 0x16b);
    Further31(Blech32, 682, 0x16b, 0x250);
    Further31(Blech32, 713, 0x250, 0x378);
  }

  lemma BlechReach992()
    requires Turns(Blech32, ONE, 744) == Poly(0x378)
    ensures Turns(Blech32, ONE, 992) == Poly(0x2f5)
  {
    hide Turns, TurnBits, TurnBits5, TurnBits31;
    BlechTurns4();
    Further31(Blech32, 744, 0x378, 0x2c4);
    Further31(Blech32, 775, 0x2c4, 0x3a6);
    Further31(Blech32, 806, 0x3a6, 0x275);
    Further31(Blech32, 837, 0x275, 0xc1);
    Further31(Blech32, 868, 0xc1, 0x32f);
    Further31(Blech32, 899, 0x32f, 0x136);
    Further31(Blech32, 930, 0x136, 0x1ad);
    Further31(Blech32, 961, 0x1ad, 0x2f5);
  }

  lemma BlechReach1023()
    requires Turns(Blech32, ONE, 992) == Poly(0x2f5)
    ensures Turns(Blech32, ONE, 1023) == Poly(0x1)
  {
    hide Turns, TurnBits, TurnBits5, TurnBits31;
    BlechTurns5();
    Further31(Blech32, 992, 0x2f5, 0x1);
  }

  lemma NoTurn(code: Code)
    ensures Turns(code, ONE, 0) == Poly(0x1)
  {
  }

  /** The exponent of one more than a power. */
  function Next(code: Code, k: nat): nat {
    if k == 341 then 682
    else if k == 93 then (if code.Bech32? then 426 else 657)
    else (if code.Bech32? then 429 else 660)
  }

  lemma PrimitivePowers(code: Code)
    ensures Turns(code, ONE, 1023) == ONE
    ensures forall k | k in {33, 93, 341} :: Xor(Turns(code, ONE, k), ONE) == Turns(code, ONE, Next(code, k))
  {
    hide Turns;
    if code.Bech32? {
      BechReach248();
      BechReach491();
      BechReach744();
      BechReach992();
      BechReach1023();
    } else {
      BlechReach248();
      BlechReach496();
      BlechReach744();
      BlechReach992();
      BlechReach1023();
    }
  }

  /** A proper divisor of 1023, which is 3 times 11 times 31. */
  lemma ProperDivisor(d: nat)
    requires 0 < d < 1023 && 1023 % d == 0
    ensures 33 % d == 0 || 93 % d == 0 || 341 % d == 0
  {
    var q := 1023 / d;
    assert d * q == 1023;
    if d < 32 {
      assert d == 1 || d == 3 || d == 11 || d == 31;
    } else {
      assert q < 32;
      assert q == 3 || q == 11 || q == 31;
    }
  }

  lemma {:induction false} Multiples(code: Code, z: Poly, n: nat, q: nat)
    requires Turns(code, z, n) == z
    ensures Turns(code, z, q * n) == z
    decreases q
  {
    if q > 0 {
      Multiples(code, z, n, q - 1);
      TurnsAdd(code, z, n, (q - 1) * n);
      assert n + (q - 1) * n == q * n;
    }
  }

  lemma FullTurn(code: Code, z: Poly)
    requires Element(z)
    ensures Turns(code, z, 1023) == z
  {
    hide Turns;
    ElementSmall(z);
    PrimitivePowers(code);
    SameTurns(code, z, 10, 1023);
  }

  lemma NotFixed(code: Code, z: Poly, k: nat)
    requires Element(z) && k in {33, 93, 341} && Turns(code, z, k) == z
    ensures z == ZERO
  {
    hide Turns, Xor, Element;
    ElementSmall(z);
    PrimitivePowers(code);
    OneMore(code, z, 10, k, Next(code, k));
    XorZero(z);
    TurnsKeep(code, z, Next(code, k));
  }

  lemma DivisorNotFixed(code: Code, z: Poly, d: nat)
    requires Element(z) && 0 < d < 1023 && 1023 % d == 0 && Turns(code, z, d) == z
    ensures z == ZERO
  {
    hide Turns, Element;
    ProperDivisor(d);
    var k := if 33 % d == 0 then 33 else if 93 % d == 0 then 93 else 341;
    Multiples(code, z, d, k / d);
    assert k / d * d == k;
    NotFixed(code, z, k);
  }

  /** No element but zero comes back to itself in fewer than 1023 turns. */
  lemma {:induction false} NoShortCycle(code: Code, z: Poly, d: nat)
    requires Element(z) && 0 < d < 1023 && Turns(code, z, d) == z
    ensures z == ZERO
    decreases d
  {
    hide Turns, Element;
    var q, r := 1023 / d, 1023 % d;
    if r == 0 {
      DivisorNotFixed(code, z, d);
    } else {
      FullTurn(code, z);
      Multiples(code, z, d, q);
      TurnsAdd(code, z, q * d, r);
      assert q * d + r == 1023;
      NoShortCycle(code, z, r);
    }
  }
}
