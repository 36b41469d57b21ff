/**
  Three wrong symbols are never missed.

  Three consecutive powers of the primitive element are roots of the generator. Words that
  differ in three symbols and leave the same state therefore give three equations, which have
  only the zero solution as long as the symbols lie within a window of 1023.
*/
module CheckDistance {
  import opened CheckSymbols
  import opened CheckField
  import opened CheckRoots

  // ----- Three equations -----

  lemma Solve(a: Poly, b: Poly, c: Poly)
    requires Xor(a, Xor(b, c)) == ZERO
    ensures b == Xor(a, c)
  {
    hide Xor;
    EqualIfXorZero(a, Xor(b, c));
    XorAssociates(b, c, c);
    XorZero(c);
    XorZero(b);
  }

  lemma CancelRight(x: Poly, y: Poly, z: Poly)
    requires Xor(x, z) == Xor(y, z)
    ensures x == y
  {
    hide Xor;
    XorCommutes(x, z);
    XorCommutes(y, z);
    XorCancels(z, x);
    XorCancels(z, y);
  }

  /** What the first two of the equations say about each other's unknowns, turned on. */
  lemma Eliminated(code: Code, u: Poly, v: Poly, w: Poly, a: nat, b: nat)
    requires Xor(u, Xor(v, w)) == ZERO && Xor(Turns(code, u, a), Xor(Turns(code, v, b), w)) == ZERO
    ensures Xor(Turns(code, u, a), Turns(code, u, b)) == Xor(Turns(code, w, b), w)
  {
    hide Xor, Turns;
    Solve(u, v, w);
    Solve(Turns(code, u, a), Turns(code, v, b), w);
    TurnsLinear(code, u, w, b);
    Crossed(Turns(code, u, a), w, Turns(code, u, b), Turns(code, w, b));
  }

  lemma Crossed(a: Poly, b: Poly, c: Poly, d: Poly)
    requires Xor(a, b) == Xor(c, d)
    ensures Xor(a, c) == Xor(d, b)
  {
    hide Xor;
    XorZero(Xor(a, b));
    Regroup(a, b, c, d);
    EqualIfXorZero(Xor(a, c), Xor(b, d));
    XorCommutes(b, d);
  }

  lemma SecondElimination(code: Code, u: Poly, v: Poly, w: Poly, a: nat, b: nat)
    requires Xor(Turns(code, u, a), Xor(Turns(code, v, b), w)) == ZERO
    requires Xor(Turns(code, u, 2 * a), Xor(Turns(code, v, 2 * b), w)) == ZERO
    ensures Turns(code, Xor(Turns(code, u, a), Turns(code, u, b)), a) == Xor(Turns(code, w, b), w)
  {
    hide Xor, Turns;
    var ua, vb := Turns(code, u, a), Turns(code, v, b);
    TurnsAdd(code, u, a, a);
    TurnsAdd(code, v, b, b);
    Eliminated(code, ua, vb, w, a, b);
    TurnsLinear(code, ua, Turns(code, u, b), a);
    TurnsAdd(code, u, a, b);
    TurnsAdd(code, u, b, a);
  }

  /** Three equations in powers of the primitive element have the zero solution only. */
  lemma Vandermonde(code: Code, u: Poly, v: Poly, w: Poly, a: nat, b: nat)
    requires Element(u) && Element(w) && 0 < b < a < 1023
    requires Xor(u, Xor(v, w)) == ZERO && Xor(Turns(code, u, a), Xor(Turns(code, v, b), w)) == ZERO
    requires Xor(Turns(code, u, 2 * a), Xor(Turns(code, v, 2 * b), w)) == ZERO
    ensures u == v == w == ZERO
  {
    hide Xor, Turns, Element;
    var ua, ub := Turns(code, u, a), Turns(code, u, b);
    var x := Xor(ua, ub);
    Eliminated(code, u, v, w, a, b);
    SecondElimination(code, u, v, w, a, b);
    TurnsKeep(code, u, a);
    TurnsKeep(code, u, b);
    ElementXor(ua, ub);
    NoShortCycle(code, x, a);
    EqualIfXorZero(ua, ub);
    TurnsAdd(code, u, b, a - b);
    NoShortCycle(code, ub, a - b);
    EqualIfXorZero(Turns(code, w, b), w);
    NoShortCycle(code, w, b);
    Solve(u, v, w);
    XorZero(ZERO);
  }

  // ----- Three errors -----

  lemma StepAdds(code: Code, c: Poly, v: Symbol)
    ensures Step(code, c, v) == Xor(Step(code, c, 0), OfSymbol(v))
  {
    hide Step, Xor, OfSymbol, Up;
    StepLinear(code, c, ZERO, v);
    XorZero(c);
    StepAppends(code, ZERO, v, 0);
    UpZero();
    XorZero(OfSymbol(v));
  }

  lemma UpZero()
    ensures Up(ZERO) == ZERO
  {
  }

  /** The difference of two symbols. */
  function Difference(a: Symbol, b: Symbol): Poly {
    Xor(OfSymbol(a), OfSymbol(b))
  }

  lemma DifferenceIs(a: Symbol, b: Symbol)
    ensures Difference(a, b).bits < 32 && (Difference(a, b) == ZERO ==> a == b)
  {
  }

  lemma StepsDiffer(code: Code, c: Poly, a: Symbol, b: Symbol)
    ensures Step(code, c, a) == Xor(Difference(a, b), Step(code, c, b))
  {
    hide Step, Xor, OfSymbol;
    StepAdds(code, c, a);
    StepAdds(code, c, b);
    var t, x, y := Step(code, c, 0), OfSymbol(a), OfSymbol(b);
    XorAssociates(x, y, Xor(t, y));
    XorCommutes(t, y);
    XorCancels(y, t);
    XorCommutes(x, t);
  }

  lemma {:induction false} FeedZeros(code: Code, c: Poly, n: nat)
    ensures Feed(code, c, Zeros(n)) == Walk(code, c, n)
    decreases n
  {
    hide Step;
    if n > 0 {
      FeedZeros(code, c, n - 1);
      Unsnoc(code, c, Zeros(n));
      assert Zeros(n)[..n - 1] == Zeros(n - 1);
    }
  }

  /** How a difference of states fares while a word and one more symbol are fed. */
  lemma Track(code: Code, e: Poly, y: Poly, q: seq<Symbol>, b: Symbol, b': Symbol)
    ensures Step(code, Feed(code, Xor(e, y), q), b) ==
      Xor(Xor(Walk(code, e, |q| + 1), Difference(b, b')), Step(code, Feed(code, y, q), b'))
  {
    hide Step, Xor, Feed, Difference;
    var w, u := Walk(code, e, |q|), Feed(code, y, q);
    FeedSplits(code, e, y, q);
    FeedZeros(code, e, |q|);
    StepLinear(code, w, u, b);
    StepsDiffer(code, u, b, b');
    XorAssociates(Step(code, w, 0), Difference(b, b'), Step(code, u, b'));
  }

  lemma FeedThree(code: Code, c: Poly, a: Symbol, q: seq<Symbol>, b: Symbol, p: seq<Symbol>, d: Symbol)
    ensures Feed(code, c, [a] + q + [b] + p + [d]) ==
      Step(code, Feed(code, Step(code, Feed(code, Step(code, c, a), q), b), p), d)
  {
    hide Step;
    FeedOne(code, c, a, q);
    FeedEnd(code, c, [a] + q, b);
    FeedConcat(code, c, [a] + q + [b], p);
    FeedEnd(code, c, [a] + q + [b] + p, d);
  }

  lemma FeedOne(code: Code, c: Poly, a: Symbol, q: seq<Symbol>)
    ensures Feed(code, c, [a] + q) == Feed(code, Step(code, c, a), q)
  {
    hide Step;
    assert ([a] + q)[1..] == q;
  }

  lemma FeedEnd(code: Code, c: Poly, w: seq<Symbol>, b: Symbol)
    ensures Feed(code, c, w + [b]) == Step(code, Feed(code, c, w), b)
  {
    hide Step, Feed;
    Unsnoc(code, c, w + [b]);
    assert (w + [b])[..|w|] == w;
  }

  /** What follows both words says nothing about them. */
  lemma StripEnd(code: Code, c: Poly, v: seq<Symbol>, w: seq<Symbol>, r: seq<Symbol>)
    requires Fits(c, Length(code)) && Feed(code, c, v + r) == Feed(code, c, w + r)
    ensures Feed(code, c, v) == Feed(code, c, w)
  {
    hide Feed, Fits;
    FeedConcat(code, c, v, r);
    FeedConcat(code, c, w, r);
    FeedFits(code, c, v);
    FeedFits(code, c, w);
    FeedInjective(code, Feed(code, c, v), Feed(code, c, w), r);
  }

  /** The differences cancel. */
  lemma Cancelled(
    code: Code, c: Poly, a: Symbol, a': Symbol, q: seq<Symbol>, b: Symbol, b': Symbol, p: seq<Symbol>, d: Symbol,
    d': Symbol)
    requires Feed(code, c, [a] + q + [b] + p + [d]) == Feed(code, c, [a'] + q + [b'] + p + [d'])
    ensures var f := Xor(Walk(code, Difference(a, a'), |q| + 1), Difference(b, b'));
      Xor(Walk(code, f, |p| + 1), Difference(d, d')) == ZERO
  {
    hide Feed, Step, Xor, Difference, Walk;
    FeedThree(code, c, a, q, b, p, d);
    FeedThree(code, c, a', q, b', p, d');
    StepsDiffer(code, c, a, a');
    var y := Step(code, c, a');
    Track(code, Difference(a, a'), y, q, b, b');
    var f := Xor(Walk(code, Difference(a, a'), |q| + 1), Difference(b, b'));
    var z := Step(code, Feed(code, y, q), b');
    Track(code, f, z, p, d, d');
    var last := Step(code, Feed(code, z, p), d');
    XorZero(last);
    CancelRight(Xor(Walk(code, f, |p| + 1), Difference(d, d')), ZERO, last);
  }

  lemma AtLinear(code: Code, i: nat, a: Poly, b: Poly)
    ensures At(code, i, Xor(a, b)) == Xor(At(code, i, a), At(code, i, b))
  {
    hide Eval, Xor;
    EvalLinear(code, FirstRoot(code) + i, Length(code), a, b);
  }

  lemma AtZero(code: Code, i: nat)
    ensures At(code, i, ZERO) == ZERO
  {
    hide Eval;
    EvalZero(code, FirstRoot(code) + i, Length(code));
  }

  /** The value of what two errors leave. */
  lemma AtPair(code: Code, i: nat, x: Poly, y: Poly, m: nat)
    requires i < 3 && x.bits < 32 && y.bits < 32
    ensures var f := Xor(Walk(code, x, m), y);
      && Fits(f, Length(code))
      && At(code, i, f) == Xor(Turns(code, Embed(code, x), Product(FirstRoot(code) + i, m)), Embed(code, y))
  {
    hide At, Xor, Walk, Turns, Embed, Fits, FirstRoot, Product;
    AtSymbol(code, i, x);
    AtSymbol(code, i, y);
    AtWalk(code, i, x, m);
    XorFits(code, Walk(code, x, m), y);
    AtLinear(code, i, Walk(code, x, m), y);
  }

  lemma TurnedPair(code: Code, x: Poly, y: Poly, e: nat, m: nat, n: nat)
    ensures Turns(code, Xor(Turns(code, x, Product(e, m)), y), Product(e, n)) ==
      Xor(Turns(code, x, Product(e, m + n)), Turns(code, y, Product(e, n)))
  {
    hide Xor, Turns, Product;
    TurnsLinear(code, Turns(code, x, Product(e, m)), y, Product(e, n));
    TurnsAdd(code, x, Product(e, m), Product(e, n));
    ProductAdd(e, m, n);
  }

  /** The equation at root i. */
  lemma Equation(code: Code, i: nat, x: Poly, y: Poly, z: Poly, m: nat, n: nat)
    requires i < 3 && x.bits < 32 && y.bits < 32 && z.bits < 32
    requires Xor(Walk(code, Xor(Walk(code, x, m), y), n), z) == ZERO
    ensures var e := FirstRoot(code) + i;
      var ex, ey := Turns(code, Embed(code, x), Product(e, m + n)), Turns(code, Embed(code, y), Product(e, n));
      Xor(ex, Xor(ey, Embed(code, z))) == ZERO
  {
    hide At, Xor, Walk, Turns, Embed, Fits, FirstRoot, Product;
    var e, f := FirstRoot(code) + i, Xor(Walk(code, x, m), y);
    var ex, ey, ez := Embed(code, x), Embed(code, y), Embed(code, z);
    AtPair(code, i, x, y, m);
    AtWalk(code, i, f, n);
    AtSymbol(code, i, z);
    AtLinear(code, i, Walk(code, f, n), z);
    AtZero(code, i);
    TurnedPair(code, ex, ey, e, m, n);
    XorAssociates(Turns(code, ex, Product(e, m + n)), Turns(code, ey, Product(e, n)), ez);
  }

  /** At the second and third root the terms of the first are turned further. */
  lemma Relative(code: Code, i: nat, x: Poly, y: Poly, z: Poly, m: nat, n: nat)
    requires i < 3 && x.bits < 32 && y.bits < 32 && z.bits < 32
    requires Xor(Walk(code, Xor(Walk(code, x, m), y), n), z) == ZERO
    ensures var t := FirstRoot(code);
      var u, v := Turns(code, Embed(code, x), Product(t, m + n)), Turns(code, Embed(code, y), Product(t, n));
      Xor(Turns(code, u, Product(i, m + n)), Xor(Turns(code, v, Product(i, n)), Embed(code, z))) == ZERO
  {
    hide Xor, Walk, Turns, Embed, FirstRoot, Product;
    var t := FirstRoot(code);
    Equation(code, i, x, y, z, m, n);
    ProductAdd(m + n, t, i);
    ProductAdd(n, t, i);
    TurnsAdd(code, Embed(code, x), Product(t, m + n), Product(i, m + n));
    TurnsAdd(code, Embed(code, y), Product(t, n), Product(i, n));
  }

  lemma Twice(a: nat)
    ensures Product(0, a) == 0 && Product(1, a) == a && Product(2, a) == 2 * a
  {
  }

  lemma OnlyZero(code: Code, x: Poly, y: Poly, z: Poly, m: nat, n: nat)
    requires x.bits < 32 && y.bits < 32 && z.bits < 32 && 0 < m && 0 < n && m + n < 1023
    requires Xor(Walk(code, Xor(Walk(code, x, m), y), n), z) == ZERO
    ensures x == y == z == ZERO
  {
    hide Xor, Walk, Turns, Embed, Element, FirstRoot, Product;
    var t, a := FirstRoot(code), m + n;
    var ex, ey, w := Embed(code, x), Embed(code, y), Embed(code, z);
    var u, v := Turns(code, ex, Product(t, a)), Turns(code, ey, Product(t, n));
    Relative(code, 0, x, y, z, m, n);
    Relative(code, 1, x, y, z, m, n);
    Relative(code, 2, x, y, z, m, n);
    Twice(a);
    Twice(n);
    NoTurns(code, u);
    NoTurns(code, v);
    EmbedElement(code, x);
    EmbedElement(code, y);
    EmbedElement(code, z);
    TurnsKeep(code, ex, Product(t, a));
    TurnsKeep(code, ey, Product(t, n));
    Vandermonde(code, u, v, w, a, n);
    EmbedNotZero(code, x);
    EmbedNotZero(code, y);
    EmbedNotZero(code, z);
  }

  /** Words that differ in three symbols, within a window of 1023, never leave the same state. */
  lemma ThreeErrorsDetected(
    code: Code, c: Poly, a: Symbol, a': Symbol, q: seq<Symbol>, b: Symbol, b': Symbol, p: seq<Symbol>, d: Symbol,
    d': Symbol, r: seq<Symbol>)
    requires Fits(c, Length(code)) && |q| + |p| + 2 < 1023
    requires Feed(code, c, [a] + q + [b] + p + [d] + r) == Feed(code, c, [a'] + q + [b'] + p + [d'] + r)
    ensures a == a' && b == b' && d == d'
  {
    hide Feed, Xor, Difference, Walk, Fits;
    StripEnd(code, c, [a] + q + [b] + p + [d], [a'] + q + [b'] + p + [d'], r);
    Cancelled(code, c, a, a', q, b, b', p, d, d');
    DifferenceIs(a, a');
    DifferenceIs(b, b');
    DifferenceIs(d, d');
    OnlyZero(code, Difference(a, a'), Difference(b, b'), Difference(d, d'), |q| + 1, |p| + 1);
  }
}
