/** 256-bit numbers in eight limbs, changed in place. */
module ArithUint256 {
  import opened Limbs

  const WIDTH: nat := 8

  /** 2^256. */
  const MODULUS: nat := 0x1_0000_0000_0000_0000_0000_0000_0000_0000_0000_0000_0000_0000_0000_0000_0000_0000

  lemma ModulusIsWeight()
    ensures Weight(8) == MODULUS && Pow2(256) == MODULUS
  {
    assert Weight(1) == BASE;
    WeightAdd(1, 1);
    WeightAdd(2, 2);
    WeightAdd(4, 4);
    WeightIsPow2(8);
  }

  class BaseUint {
    const pn: array<Limb>

    ghost predicate Valid() {
      pn.Length == WIDTH
    }

    ghost function V(): nat
      requires Valid()
      reads pn
    {
      Val(pn[..])
    }

    /** A number of 64 bits. */
    constructor (b: nat)
      requires b < 0x1_0000_0000_0000_0000
      ensures Valid() && fresh(pn) && V() == b
    {
      var limbs := new Limb[WIDTH](_ => 0);
      limbs[0] := b % BASE;
      limbs[1] := b / BASE;
      pn := limbs;
      new;
      SmallValue(pn[..], b);
    }

    constructor Copy(b: BaseUint)
      requires b.Valid()
      ensures Valid() && fresh(pn) && pn[..] == b.pn[..]
    {
      var limbs := new Limb[WIDTH](i requires 0 <= i < b.pn.Length reads b.pn => b.pn[i]);
      pn := limbs;
    }

    /** Addition modulo 2^256; a column and its carry fit into 64 bits. */
    method Add(b: BaseUint)
      requires Valid() && b.Valid()
      modifies pn
      ensures V() == (old(V()) + old(b.V())) % Weight(WIDTH)
    {
      hide Val, Weight, Low, High;
      ghost var x, y := pn[..], b.pn[..];
      var carry: nat := 0;
      var i := 0;
      EmptyColumns(pn[..0], x[..0], y[..0]);
      while i < WIDTH
        invariant 0 <= i <= WIDTH && carry <= 1
        invariant pn[i..] == x[i..] && b.pn[i..] == y[i..]
        invariant Val(pn[..i]) + carry * Weight(i) == Val(x[..i]) + Val(y[..i])
      {
        var n := carry + pn[i] + b.pn[i];
        assert pn[i] == x[i] && b.pn[i] == y[i];
        assert n < 0x1_0000_0000_0000_0000;
        AddColumn(pn[..i], x, y, carry, i);
        SmallCarry(n);
        pn[i] := Low(n);
        assert pn[..i + 1] == pn[..i] + [Low(n)];
        carry := High(n);
        i := i + 1;
      }
      assert pn[..WIDTH] == pn[..] && x[..WIDTH] == x && y[..WIDTH] == y;
      ValBelow(pn[..]);
      Mod(Val(x) + Val(y), Val(pn[..]), carry, Weight(WIDTH));
    }

    method CopyFrom(a: array<Limb>)
      requires Valid() && a.Length == WIDTH
      modifies pn
      ensures pn[..] == old(a[..])
    {
      var i := 0;
      while i < WIDTH
        invariant 0 <= i <= WIDTH && pn[..i] == old(a[..i]) && a[i..] == old(a[i..])
      {
        pn[i] := a[i];
        i := i + 1;
      }
    }

    /** Every bit inverted. */
    method Inverted() returns (ret: BaseUint)
      requires Valid()
      ensures ret.Valid() && fresh(ret) && fresh(ret.pn) && ret.V() == Weight(WIDTH) - 1 - V()
    {
      hide Val, Weight;
      ret := new BaseUint(0);
      var i := 0;
      while i < WIDTH
        invariant 0 <= i <= WIDTH && fresh(ret.pn)
        invariant forall j | 0 <= j < i :: ret.pn[j] == BASE - 1 - pn[j]
        modifies ret.pn
      {
        ret.pn[i] := BASE - 1 - pn[i];
        i := i + 1;
      }
      ValInverted(pn[..], ret.pn[..]);
    }

    /** Adds one modulo 2^256. */
    method Increment()
      requires Valid()
      modifies pn
      ensures V() == (old(V()) + 1) % Weight(WIDTH)
    {
      hide Val, Low;
      ghost var v := V();
      var i := 0;
      assert Weight(0) == 1;
      while i < WIDTH
        invariant 0 <= i <= WIDTH && Val(pn[..]) + Weight(i) == v + 1
      {
        ghost var before := pn[..];
        var x: nat := pn[i];
        ValUpdate(before, i, Low(x + 1));
        IncrementLimb(pn[i], Weight(i));
        pn[i] := Low(x + 1);
        assert pn[..] == before[i := Low(x + 1)];
        if pn[i] != 0 {
          ValBelow(pn[..]);
          Mod(v + 1, Val(pn[..]), 0, Weight(WIDTH));
          return;
        }
        i := i + 1;
      }
      ValBelow(pn[..]);
      Mod(v + 1, Val(pn[..]), 1, Weight(WIDTH));
    }

    /** Takes one away modulo 2^256. */
    method Decrement()
      requires Valid()
      modifies pn
      ensures V() == (old(V()) - 1) % Weight(WIDTH)
    {
      hide Val, Weight;
      ghost var v := V();
      var i := 0;
      WeightZero();
      while i < WIDTH
        invariant 0 <= i <= WIDTH && Val(pn[..]) + 1 == v + Weight(i)
      {
        ghost var before := pn[..];
        var x := pn[i];
        var down: Limb := if x == 0 then BASE - 1 else x - 1;
        ValUpdate(before, i, down);
        DecrementLimb(x, down, Weight(i));
        WeightStep(i);
        pn[i] := down;
        assert pn[..] == before[i := down];
        if pn[i] != BASE - 1 {
          ValBelow(pn[..]);
          Remainder(v - 1, Val(pn[..]), 0, Weight(WIDTH));
          return;
        }
        i := i + 1;
      }
      ValBelow(pn[..]);
      Remainder(v - 1, Val(pn[..]), -1, Weight(WIDTH));
    }

    /** The number that adds up to zero with this one. */
    method Negated() returns (ret: BaseUint)
      requires Valid()
      ensures ret.Valid() && fresh(ret) && fresh(ret.pn) && ret.V() == (Weight(WIDTH) - V()) % Weight(WIDTH)
    {
      ret := Inverted();
      ret.Increment();
    }

    /** Subtraction modulo 2^256. */
    method Sub(b: BaseUint)
      requires Valid() && b.Valid()
      modifies pn
      ensures V() == (old(V()) - old(b.V())) % Weight(WIDTH)
    {
      hide Val, Weight;
      ghost var x, y := V(), b.V();
      ValBelow(pn[..]);
      ValBelow(b.pn[..]);
      var minus := b.Negated();
      Add(minus);
      SubMod(x, y, Weight(WIDTH));
    }

    /** Multiplication by one limb. */
    method MulLimb(b: Limb)
      requires Valid()
      modifies pn
      ensures V() == old(V()) * b % Weight(WIDTH)
    {
      hide Val, Low, High;
      ghost var x := pn[..];
      var carry: nat := 0;
      var i := 0;
      EmptyValue();
      while i < WIDTH
        invariant 0 <= i <= WIDTH && carry < BASE && pn[i..] == x[i..]
        invariant Val(pn[..i]) + carry * Weight(i) == Val(x[..i]) * b
      {
        ProductFits(b, pn[i], carry, 0);
        var n := carry + b * pn[i];
        assert pn[i] == x[i];
        assert n < 0x1_0000_0000_0000_0000;
        MulColumn(pn[..i], x, b, carry, i);
        pn[i] := Low(n);
        assert pn[..i + 1] == pn[..i] + [Low(n)];
        carry := High(n);
        i := i + 1;
      }
      assert pn[..WIDTH] == pn[..] && x[..WIDTH] == x;
      ValBelow(pn[..]);
      Mod(Val(x) * b, Val(pn[..]), carry, Weight(WIDTH));
    }

    /** Multiplication modulo 2^256, row by row; a column with its carry fits into 64 bits. */
    method Mul(b: BaseUint)
      requires Valid() && b.Valid()
      modifies pn
      ensures V() == old(V()) * old(b.V()) % Weight(WIDTH)
    {
      hide Val, Low, High, Weight;
      ghost var x, y := pn[..], b.pn[..];
      var a := new Limb[WIDTH](_ => 0);
      assert a[..] == seq(WIDTH, _ => 0);
      ValZero(WIDTH);
      EmptyValue();
      ghost var wraps: nat := 0;
      var j := 0;
      while j < WIDTH
        invariant 0 <= j <= WIDTH && Val(a[..]) + wraps * Weight(WIDTH) == Val(x[..j]) * Val(y)
        invariant pn[..] == x && b.pn[..] == y && fresh(a)
        modifies a
      {
        ghost var start := Val(a[..]);
        var carry := MulRow(a, j, pn[j], b);
        wraps := MulRowDone(start, Val(a[..]), carry, wraps, x, y, j);
        j := j + 1;
      }
      assert x[..WIDTH] == x;
      ValBelow(a[..]);
      Mod(Val(x) * Val(y), Val(a[..]), wraps, Weight(WIDTH));
      CopyFrom(a);
    }

    /** One row: the product of one limb with the other number, added in from limb j on. */
    static method MulRow(a: array<Limb>, j: nat, x: Limb, b: BaseUint) returns (carry: nat)
      requires a.Length == WIDTH && j < WIDTH && b.Valid() && a != b.pn
      modifies a
      ensures Val(a[..]) + carry * Weight(WIDTH) == old(Val(a[..])) + x * Val(b.pn[..WIDTH - j]) * Weight(j)
    {
      hide Val, Low, High, Weight;
      ghost var start := Val(a[..]);
      carry := 0;
      var i := 0;
      EmptyValue();
      while i + j < WIDTH
        invariant 0 <= i <= WIDTH - j && carry < BASE
        invariant Val(a[..]) + carry * Weight(i + j) == start + x * Val(b.pn[..i]) * Weight(j)
      {
        ProductFits(x, b.pn[i], carry, a[i + j]);
        var n := carry + a[i + j] + x * b.pn[i];
        assert n < 0x1_0000_0000_0000_0000;
        ghost var before := a[..];
        MulCell(before, start, x, b.pn[..], carry, i, j);
        a[i + j] := Low(n);
        assert a[..] == before[i + j := Low(n)];
        carry := High(n);
        i := i + 1;
      }
    }

    method Clear()
      requires Valid()
      modifies pn
      ensures pn[..] == seq(WIDTH, _ => 0) && V() == 0
    {
      var i := 0;
      while i < WIDTH
        invariant 0 <= i <= WIDTH && forall j | 0 <= j < i :: pn[j] == 0
      {
        pn[i] := 0;
        i := i + 1;
      }
      assert pn[..] == seq(WIDTH, _ => 0);
      ValZero(WIDTH);
    }

    method Assign(b: nat)
      requires Valid() && b < 0x1_0000_0000_0000_0000
      modifies pn
      ensures V() == b
    {
      Clear();
      pn[0] := b % BASE;
      pn[1] := b / BASE;
      SmallValue(pn[..], b);
    }

    method EqualTo(b: nat) returns (r: bool)
      requires Valid() && b < 0x1_0000_0000_0000_0000
      ensures r <==> V() == b
    {
      hide Val;
      var i := WIDTH;
      while i > 2
        invariant 2 <= i <= WIDTH && forall j | i <= j < WIDTH :: pn[j] == 0
      {
        i := i - 1;
        if pn[i] != 0 {
          LimbAbove(pn[..], i);
          return false;
        }
      }
      ghost var low := pn[0] + BASE * pn[1];
      SmallValue(pn[..], low);
      if pn[1] != b / BASE { return false; }
      if pn[0] != b % BASE { return false; }
      return true;
    }

    method GetLow64() returns (r: nat)
      requires Valid()
      ensures r == V() % 0x1_0000_0000_0000_0000
    {
      hide Val;
      Cons(pn[..]);
      Cons(pn[1..]);
      assert pn[..][1..] == pn[1..];
      r := pn[0] + BASE * pn[1];
      ghost var high := Val(pn[1..][1..]);
      assert BASE * (pn[1] + BASE * high) == BASE * pn[1] + BASE * BASE * high;
      Mod(V(), r, high, 0x1_0000_0000_0000_0000);
    }

    /** Multiplication by a power of two modulo 2^256. */
    method ShiftLeft(shift: nat)
      requires Valid()
      modifies pn
      ensures V() == old(V()) * Pow2(shift) % Weight(WIDTH)
    {
      hide Val, Weight, Low, High, Pow2, BitOr;
      ghost var x := pn[..];
      var a := new BaseUint.Copy(this);
      Clear();
      var k, s := shift / 32, shift % 32;
      ghost var p := Pow2(s);
      var i := 0;
      while i < WIDTH
        invariant 0 <= i <= WIDTH && a.pn[..] == x && fresh(a.pn)
        invariant forall j | 0 <= j < WIDTH :: pn[j] == LeftLimb(x, k, p, i, j)
      {
        LeftStep(a, k, s, i);
        i := i + 1;
      }
      LeftIsPower(x, pn[..], k, s, shift);
    }

    /** One limb's two parts put in their places. */
    method LeftStep(a: BaseUint, k: nat, s: nat, i: nat)
      requires Valid() && a.Valid() && a.pn != pn && s < 32 && i < WIDTH
      requires forall j | 0 <= j < WIDTH :: pn[j] == LeftLimb(a.pn[..], k, Pow2(s), i, j)
      modifies pn
      ensures forall j | 0 <= j < WIDTH :: pn[j] == LeftLimb(a.pn[..], k, Pow2(s), i + 1, j)
    {
      hide Low, High, Pow2, BitOr, LeftLimb;
      ghost var x, p := a.pn[..], Pow2(s);
      LeftTurn(x, k, p, i);
      HighPart(a.pn[i], s);
      if i + k + 1 < WIDTH && s != 0 {
        BitOrZero(a.pn[i] / Pow2(32 - s));
        pn[i + k + 1] := BitOr(pn[i + k + 1], a.pn[i] / Pow2(32 - s));
      }
      if i + k < WIDTH {
        LeftBelow(x, k, s, i);
        OrFits(a.pn[i], pn[i + k], s);
        pn[i + k] := BitOr(Low(a.pn[i] * Pow2(s)), pn[i + k]);
      }
    }

    method RightStep(a: BaseUint, k: nat, s: nat, i: nat)
      requires Valid() && a.Valid() && a.pn != pn && s < 32 && i < WIDTH
      requires forall j | 0 <= j < WIDTH :: pn[j] == RightLimb(a.pn[..], k, Pow2(s), Pow2(32 - s), i, j)
      modifies pn
      ensures forall j | 0 <= j < WIDTH :: pn[j] == RightLimb(a.pn[..], k, Pow2(s), Pow2(32 - s), i + 1, j)
    {
      hide Low, High, Pow2, BitOr, RightLimb;
      ghost var x, p, t := a.pn[..], Pow2(s), Pow2(32 - s);
      RightTurn(x, k, p, t, i);
      if s == 0 { NoShift(a.pn[i]); }
      if i - k - 1 >= 0 && s != 0 {
        RightBelow(x, k, s, i);
        OrFits(a.pn[i], pn[i - k - 1], 32 - s);
        pn[i - k - 1] := BitOr(Low(a.pn[i] * Pow2(32 - s)), pn[i - k - 1]);
      }
      if i - k >= 0 {
        Smaller32(a.pn[i], p);
        BitOrZero(a.pn[i] / p);
        pn[i - k] := BitOr(pn[i - k], a.pn[i] / Pow2(s));
      }
    }

    /** Division by a power of two. */
    method ShiftRight(shift: nat)
      requires Valid()
      modifies pn
      ensures V() == old(V()) / Pow2(shift)
    {
      hide Val, Weight, Low, High, Pow2, BitOr;
      ghost var x := pn[..];
      var a := new BaseUint.Copy(this);
      Clear();
      var k, s := shift / 32, shift % 32;
      ghost var p, t := Pow2(s), Pow2(32 - s);
      var i := 0;
      while i < WIDTH
        invariant 0 <= i <= WIDTH && a.pn[..] == x && fresh(a.pn)
        invariant forall j | 0 <= j < WIDTH :: pn[j] == RightLimb(x, k, p, t, i, j)
      {
        RightStep(a, k, s, i);
        i := i + 1;
      }
      RightIsPower(x, pn[..], k, s, shift);
    }

    /** The sign of the difference. */
    method CompareTo(b: BaseUint) returns (r: int)
      requires Valid() && b.Valid()
      ensures r == (if V() < b.V() then -1 else if V() > b.V() then 1 else 0)
    {
      hide Val;
      var i := WIDTH;
      while i > 0
        invariant 0 <= i <= WIDTH && pn[i..] == b.pn[i..]
      {
        i := i - 1;
        if pn[i] < b.pn[i] {
          ValCompares(pn[..], b.pn[..], i);
          return -1;
        }
        if pn[i] > b.pn[i] {
          ValCompares(b.pn[..], pn[..], i);
          return 1;
        }
      }
      assert pn[..] == b.pn[..];
      return 0;
    }

    /** The position of the highest bit plus one, or zero. */
    method Bits() returns (r: nat)
      requires Valid()
      ensures r == 0 <==> V() == 0
      ensures r > 0 ==> r <= 32 * WIDTH && Pow2(r - 1) <= V() < Pow2(r)
    {
      hide Val, Pow2;
      var pos := WIDTH;
      while pos > 0
        invariant 0 <= pos <= WIDTH && forall j | pos <= j < WIDTH :: pn[j] == 0
      {
        pos := pos - 1;
        if pn[pos] != 0 {
          var n := HighBit(pn[pos]);
          HighestBit(pn[..], pos, n);
          return 32 * pos + n;
        }
      }
      assert pn[..] == seq(WIDTH, _ => 0);
      ValZero(WIDTH);
      return 0;
    }

    static method HighBit(x: Limb) returns (n: nat)
      requires x != 0
      ensures 0 < n <= 32 && Pow2(n - 1) <= x < Pow2(n)
    {
      hide Pow2;
      Pow2Base();
      n := 31;
      while n > 0
        invariant 0 <= n <= 31 && x < Pow2(n + 1)
      {
        TopBit(x, n);
        if x / Pow2(n) % 2 == 1 { return n + 1; }
        n := n - 1;
      }
      PowZero();
      return 1;
    }

    /** The quotient, for every divisor but zero; for that the original throws with the number set to zero. */
    method Div(b: BaseUint) returns (ok: bool)
      requires Valid() && b.Valid()
      modifies pn
      ensures ok <==> old(b.V()) != 0
      ensures V() == if ok then old(V()) / old(b.V()) else 0
    {
      hide Val, Weight, Pow2, Low, BitOr, ClearBelow;
      var div := new BaseUint.Copy(b);
      var num := new BaseUint.Copy(this);
      ghost var n, d := V(), b.V();
      Clear();
      var numBits := num.Bits();
      var divBits := div.Bits();
      if divBits == 0 { return false; }
      if divBits > numBits {
        Pow2Grows(numBits, divBits - 1);
        ZeroQuotient(n, d, numBits);
        return true;
      }
      var shift := numBits - divBits;
      Aligned(n, d, numBits, divBits);
      ZeroIsClear(pn[..], shift + 1);
      div.ShiftLeft(shift);
      while shift >= 0
        invariant -1 <= shift < 32 * WIDTH && div.Valid() && num.Valid()
        invariant fresh(div.pn) && fresh(num.pn) && div.pn != num.pn && div.pn != pn && num.pn != pn
        invariant DivState(pn[..], num.V(), div.V(), n, d, shift)
        decreases shift
      {
        DivStep(num, div, shift, n, d);
        shift := shift - 1;
      }
      DivDone(pn[..], num.V(), div.V(), n, d);
      return true;
    }

    /** One bit of the quotient. */
    method DivStep(num: BaseUint, div: BaseUint, shift: nat, ghost n: nat, ghost d: nat)
      requires Valid() && num.Valid() && div.Valid() && shift < 32 * WIDTH
      requires div.pn != num.pn && div.pn != pn && num.pn != pn && DivState(pn[..], num.V(), div.V(), n, d, shift)
      modifies pn, num.pn, div.pn
      ensures DivState(pn[..], num.V(), div.V(), n, d, shift - 1)
    {
      hide Val, Weight, Pow2, Low, BitOr, ClearBelow;
      var order := num.CompareTo(div);
      ghost var q, rest, part := V(), num.V(), div.V();
      NextPower(d, shift);
      if order >= 0 {
        num.SubExact(div);
        SetResultBit(shift);
        QuotientStep(q, d, rest, Pow2(shift));
      } else {
        ClearLower(pn[..], shift);
      }
      div.ShiftRight(1);
    }

    method SubExact(b: BaseUint)
      requires Valid() && b.Valid() && b.V() <= V()
      modifies pn
      ensures V() == old(V()) - old(b.V())
    {
      hide Val, Weight;
      ghost var x, y := V(), b.V();
      ValBelow(pn[..]);
      Sub(b);
      Mod(x - y, x - y, 0, Weight(WIDTH));
    }

    method SetResultBit(shift: nat)
      requires Valid() && shift < 32 * WIDTH && ClearBelow(pn[..], shift + 1)
      modifies pn
      ensures V() == old(V()) + Pow2(shift) && ClearBelow(pn[..], shift)
    {
      hide Val, Weight, Pow2, BitOr;
      ghost var x := pn[..];
      ResultBit(x, shift);
      pn[shift / 32] := BitOr(pn[shift / 32], Pow2(shift % 32));
      assert pn[..] == x[shift / 32 := pn[shift / 32]];
    }
  }

  lemma EmptyColumns(a: seq<Limb>, x: seq<Limb>, y: seq<Limb>)
    requires a == x == y == []
    ensures Val(a) + 0 * Weight(0) == Val(x) + Val(y)
  {
  }

  lemma SmallCarry(n: nat)
    requires n < 2 * BASE
    ensures High(n) <= 1
  {
  }

  lemma SmallValue(s: seq<Limb>, b: nat)
    requires |s| == WIDTH && b == s[0] + BASE * s[1] && forall i | 2 <= i < WIDTH :: s[i] == 0
    ensures Val(s) == b
  {
    hide Val, Weight;
    Cons(s);
    Cons(s[1..]);
    ValZero(6);
    assert s[1..][1..] == seq(6, _ => 0);
  }

  lemma AddColumn(done: seq<Limb>, x: seq<Limb>, y: seq<Limb>, carry: nat, i: nat)
    requires |x| == |y| == WIDTH && i < WIDTH && |done| == i
    requires Val(done) + carry * Weight(i) == Val(x[..i]) + Val(y[..i])
    ensures var n := carry + x[i] + y[i];
      Val(done + [Low(n)]) + High(n) * Weight(i + 1) == Val(x[..i + 1]) + Val(y[..i + 1])
  {
    hide Val, Low, High;
    var u: nat, v: nat := x[i], y[i];
    var n := carry + u + v;
    CarryStep(Val(done), carry, Weight(i), u + v, Val(x[..i]) + Val(y[..i]));
    Snoc(done, Low(n));
    Snoc(x[..i], x[i]);
    Snoc(y[..i], y[i]);
    assert x[..i + 1] == x[..i] + [x[i]] && y[..i + 1] == y[..i] + [y[i]];
    assert (u + v) * Weight(i) == u * Weight(i) + v * Weight(i);
  }

  lemma IncrementLimb(limb: Limb, w: nat)
    ensures var x: nat := limb;
      && (Low(x + 1) == 0 ==> BASE * w == w + x * w)
      && (Low(x + 1) != 0 ==> Low(x + 1) * w == x * w + w)
  {
    var x: nat := limb;
    assert (x + 1) * w == x * w + w;
  }

  lemma WeightZero()
    ensures Weight(0) == 1
  {
  }

  lemma DecrementLimb(limb: Limb, down: Limb, w: nat)
    requires down == if limb == 0 then BASE - 1 else limb - 1
    ensures var x: nat, y: nat := limb, down;
      if x == 0 then y * w + w == BASE * w else y * w + w == x * w
  {
    var y: nat := down;
    assert (y + 1) * w == y * w + w;
  }

  lemma SubMod(x: nat, y: nat, m: nat)
    requires x < m && y < m
    ensures (x + (m - y) % m) % m == (x - y) % m
  {
    if y == 0 {
      Mod(m, 0, 1, m);
    } else {
      Mod(m - y, m - y, 0, m);
      if x >= y {
        Mod(x + (m - y), x - y, 1, m);
        Mod(x - y, x - y, 0, m);
      } else {
        Mod(x + (m - y), x + (m - y), 0, m);
        Remainder(x - y, x + (m - y), -1, m);
      }
    }
  }

  lemma Remainder(a: int, r: nat, q: int, m: nat)
    requires m > 0 && a == r + q * m && r < m
    ensures a % m == r
  {
    var d := q - a / m;
    assert d * m == q * m - a / m * m;
    assert d >= 1 ==> d * m >= m;
    assert d <= -1 ==> d * m + m <= 0;
  }

  /** A product of two limbs with two more limbs added fits into 64 bits. */
  lemma ProductFits(x: Limb, y: Limb, c: nat, d: Limb)
    requires c < BASE
    ensures c + d + x * y < BASE * BASE && High(c + d + x * y) < BASE
  {
    LimbBelow(x, y);
    assert x * y <= BASE * y - y;
    assert BASE * y - y == (BASE - 1) * y;
    assert (BASE - 1) * y <= (BASE - 1) * (BASE - 1);
  }

  lemma MulColumn(done: seq<Limb>, x: seq<Limb>, b: Limb, carry: nat, i: nat)
    requires |x| == WIDTH && i < WIDTH && |done| == i
    requires Val(done) + carry * Weight(i) == Val(x[..i]) * b
    ensures var n := carry + b * x[i];
      Val(done + [Low(n)]) + High(n) * Weight(i + 1) == Val(x[..i + 1]) * b
  {
    hide Val, Low, High;
    var n := carry + b * x[i];
    CarryStep(Val(done), carry, Weight(i), b * x[i], Val(x[..i]) * b);
    Snoc(done, Low(n));
    Snoc(x[..i], x[i]);
    assert x[..i + 1] == x[..i] + [x[i]];
    Factor(Val(x[..i]), b, x[i], Weight(i));
  }

  lemma Factor(v: nat, b: nat, x: nat, w: nat)
    ensures v * b + b * x * w == (v + x * w) * b
  {
    assert b * x * w == (x * w) * b;
  }

  lemma MulCell(a: seq<Limb>, start: nat, x: Limb, y: seq<Limb>, carry: nat, i: nat, j: nat)
    requires |a| == |y| == WIDTH && i + j < WIDTH
    requires Val(a) + carry * Weight(i + j) == start + x * Val(y[..i]) * Weight(j)
    ensures var n := carry + a[i + j] + x * y[i];
      Val(a[i + j := Low(n)]) + High(n) * Weight(i + 1 + j) == start + x * Val(y[..i + 1]) * Weight(j)
  {
    hide Val, Low, High, Weight;
    var n := carry + a[i + j] + x * y[i];
    ValUpdate(a, i + j, Low(n));
    Snoc(y[..i], y[i]);
    assert y[..i + 1] == y[..i] + [y[i]];
    WeightAdd(i, j);
    WeightStep(i + j);
    MulSum(Val(a), a[i + j], Val(a[i + j := Low(n)]), Low(n), High(n), Weight(i + j), carry, x, y[i]);
    RowSum(x, Val(y[..i]), y[i], Weight(i), Weight(j));
  }

  lemma MulSum(a: nat, cell: nat, after: nat, low: nat, high: nat, w: nat, carry: nat, x: nat, y: nat)
    requires after + cell * w == a + low * w && high * BASE + low == carry + cell + x * y
    ensures after + high * (BASE * w) == a + carry * w + x * y * w
  {
    Scale(high, BASE, low, w);
    assert (carry + cell + x * y) * w == carry * w + cell * w + x * y * w;
  }

  lemma RowSum(x: nat, v: nat, y: nat, u: nat, w: nat)
    ensures x * v * w + x * y * (u * w) == x * (v + y * u) * w
  {
    assert x * y * (u * w) == x * (y * u) * w;
    assert x * (v + y * u) == x * v + x * (y * u);
    assert (x * v + x * (y * u)) * w == x * v * w + x * (y * u) * w;
  }

  /** What a row leaves out is a multiple of the modulus. */
  lemma MulRowDone(start: nat, a: nat, carry: nat, wraps: nat, x: seq<Limb>, y: seq<Limb>, j: nat) returns (after: nat)
    requires |x| == |y| == WIDTH && j < WIDTH && start + wraps * Weight(WIDTH) == Val(x[..j]) * Val(y)
    requires a + carry * Weight(WIDTH) == start + x[j] * Val(y[..WIDTH - j]) * Weight(j)
    ensures a + after * Weight(WIDTH) == Val(x[..j + 1]) * Val(y)
  {
    hide Val, Weight;
    var n := WIDTH - j;
    assert y == y[..n] + y[n..];
    ValConcat(y[..n], y[n..]);
    WeightAdd(n, j);
    Snoc(x[..j], x[j]);
    assert x[..j + 1] == x[..j] + [x[j]];
    after := RowWraps(start, a, carry, wraps, Val(x[..j]), x[j], Val(y[..n]), Val(y[n..]), Weight(n), Weight(j),
        Val(y), Weight(WIDTH));
  }

  lemma RowWraps(
    start: nat, a: nat, carry: nat, wraps: nat, v: nat, x: nat, low: nat, high: nat, u: nat, w: nat, y: nat, all: nat)
    returns (after: nat)
    requires y == low + u * high && all == u * w && start + wraps * all == v * y
    requires a + carry * all == start + x * low * w
    ensures a + after * all == (v + x * w) * y
  {
    after := wraps + carry + x * high;
    assert (wraps + carry + x * high) * (u * w) == wraps * (u * w) + carry * (u * w) + x * high * (u * w);
    assert (v + x * w) * y == v * y + x * w * y;
    assert x * w * (low + u * high) == x * w * low + x * w * (u * high);
    assert x * w * low == x * low * w;
    assert x * w * (u * high) == x * high * (u * w);
  }

  // ----- Shifts -----

  /** Below the limb for 2^s there is room for s bits. */
  lemma OrFits(x: Limb, y: nat, s: nat)
    requires s <= 32 && y < Pow2(s)
    ensures BitOr(Low(x * Pow2(s)), y) == Low(x * Pow2(s)) + y < BASE
  {
    hide Pow2, Low, BitOr;
    var p, t := Pow2(s), Pow2(32 - s);
    Pow2Add(s, 32 - s);
    Pow2Base();
    Split(x, p, t);
    LowRoom(Low(x * p), p, t);
    BitOrAdds(x % t, y, s);
  }

  /** One turn of the loop that shifts left concerns two limbs of the result. */
  lemma LeftTurn(x: seq<Limb>, k: nat, p: nat, i: nat)
    requires |x| == WIDTH && i < WIDTH
    ensures LeftLimb(x, k, p, i, i + k + 1) == 0 && LeftLimb(x, k, p, i + 1, i + k + 1) == High(x[i] * p)
    ensures LeftLimb(x, k, p, i + 1, i + k) == Low(x[i] * p) + LeftLimb(x, k, p, i, i + k)
    ensures forall j | 0 <= j < WIDTH && j != i + k && j != i + k + 1 ::
      LeftLimb(x, k, p, i + 1, j) == LeftLimb(x, k, p, i, j)
  {
    hide Low, High;
  }

  lemma LeftBelow(x: seq<Limb>, k: nat, s: nat, i: nat)
    requires |x| == WIDTH && i < WIDTH && s < 32
    ensures LeftLimb(x, k, Pow2(s), i, i + k) < Pow2(s)
  {
    hide Low, High, Pow2;
    if i > 0 { Parts(x[i - 1], s); }
  }

  lemma HighPart(x: Limb, s: nat)
    requires s < 32
    ensures x / Pow2(32 - s) == High(x * Pow2(s)) < BASE
    ensures s == 0 ==> High(x * Pow2(s)) == 0
  {
    hide Low, High, Pow2;
    Parts(x, s);
    PowZero();
    Pow2Base();
    Pow2Grows(s, 32);
  }

  lemma LeftIsPower(x: seq<Limb>, r: seq<Limb>, k: nat, s: nat, shift: nat)
    requires |x| == |r| == WIDTH && s < 32 && shift == 32 * k + s
    requires forall j | 0 <= j < WIDTH :: r[j] == LeftLimb(x, k, Pow2(s), WIDTH, j)
    ensures Val(r) == Val(x) * Pow2(shift) % Weight(WIDTH)
  {
    hide Pow2, Val, Weight, LeftLimb;
    Pow2Add(s, 32 - s);
    Pow2Base();
    LeftValue(x, r, k, Pow2(s), Pow2(32 - s));
    WeightIsPow2(k);
    Pow2Add(s, 32 * k);
  }

  lemma RightTurn(x: seq<Limb>, k: nat, p: nat, t: nat, i: nat)
    requires |x| == WIDTH && i < WIDTH && p > 0
    ensures i >= k ==> RightLimb(x, k, p, t, i, i - k) == 0 && RightLimb(x, k, p, t, i + 1, i - k) == x[i] / p
    ensures i > k ==> RightLimb(x, k, p, t, i + 1, i - k - 1) == Low(x[i] * t) + RightLimb(x, k, p, t, i, i - k - 1)
    ensures forall j | 0 <= j < WIDTH && j != i - k && j != i - k - 1 ::
      RightLimb(x, k, p, t, i + 1, j) == RightLimb(x, k, p, t, i, j)
  {
    hide Low;
  }

  lemma RightBelow(x: seq<Limb>, k: nat, s: nat, i: nat)
    requires |x| == WIDTH && k < i < WIDTH && s < 32
    ensures RightLimb(x, k, Pow2(s), Pow2(32 - s), i, i - k - 1) < Pow2(32 - s)
  {
    hide Low, Pow2;
    Pow2Add(32 - s, s);
    Pow2Base();
    Quotient(x[i - 1], Pow2(s), Pow2(32 - s));
  }

  lemma NoShift(x: Limb)
    ensures Low(x * Pow2(32 - 0)) == 0
  {
    hide Pow2;
    Pow2Base();
    ModZero(x, BASE);
  }

  lemma Smaller32(x: Limb, p: nat)
    requires p > 0
    ensures x / p < BASE
  {
    assert x < BASE * p;
    Quotient(x, p, BASE);
  }

  lemma RightIsPower(x: seq<Limb>, r: seq<Limb>, k: nat, s: nat, shift: nat)
    requires |x| == |r| == WIDTH && s < 32 && shift == 32 * k + s
    requires forall j | 0 <= j < WIDTH :: r[j] == RightLimb(x, k, Pow2(s), Pow2(32 - s), WIDTH, j)
    ensures Val(r) == Val(x) / Pow2(shift)
  {
    hide Pow2, Val, Weight, RightLimb;
    Pow2Add(32 - s, s);
    Pow2Base();
    RightValue(x, r, k, Pow2(s), Pow2(32 - s));
    WeightIsPow2(k);
    Pow2Add(32 * k, s);
  }

  lemma PowZero()
    ensures Pow2(0) == 1 && Pow2(1) == 2
  {
  }

  lemma TopBit(x: nat, n: nat)
    requires x < Pow2(n + 1)
    ensures if x / Pow2(n) % 2 == 1 then Pow2(n) <= x else x < Pow2(n)
  {
    hide Pow2;
    Pow2Add(1, n);
    PowZero();
    Quotient(x, Pow2(n), 2);
    assert x / Pow2(n) * Pow2(n) <= x < x / Pow2(n) * Pow2(n) + Pow2(n);
  }

  // ----- Division -----

  /** The lowest n bits are clear. */
  ghost predicate ClearBelow(s: seq<Limb>, n: nat) {
    forall i | 0 <= i < |s| :: LimbClear(s[i], n - 32 * i)
  }

  ghost predicate LimbClear(x: Limb, n: int) {
    if n >= 32 then x == 0 else if n >= 0 then x % Pow2(n) == 0 else true
  }

  /** What the division keeps: the number split into quotient and rest, with the bits from shift down still to come. */
  ghost predicate DivState(q: seq<Limb>, rest: nat, part: nat, n: nat, d: nat, shift: int) {
    && d > 0 && shift >= -1 && n == Val(q) * d + rest && rest < d * Pow2(shift + 1)
    && (shift >= 0 ==> part == d * Pow2(shift))
    && ClearBelow(q, shift + 1)
  }

  /** In the end the rest is the remainder. */
  lemma DivDone(q: seq<Limb>, rest: nat, part: nat, n: nat, d: nat)
    requires DivState(q, rest, part, n, d, -1)
    ensures Val(q) == n / d && rest == n % d
  {
    hide Val;
    PowZero();
    Mod(n, rest, Val(q), d);
  }

  lemma ZeroIsClear(s: seq<Limb>, n: nat)
    requires s == seq(WIDTH, _ => 0)
    ensures ClearBelow(s, n)
  {
    forall i | 0 <= i < |s| ensures LimbClear(s[i], n - 32 * i) {
      if 0 <= n - 32 * i { Mod(0, 0, 0, Pow2(n - 32 * i)); }
    }
  }

  lemma ZeroQuotient(n: nat, d: nat, bits: nat)
    requires (bits == 0 ==> n == 0) && n < Pow2(bits) <= d
    ensures n / d == 0
  {
    Mod(n, n, 0, d);
  }

  lemma Aligned(n: nat, d: nat, numBits: nat, divBits: nat)
    requires 0 < divBits <= numBits <= 256 && n < Pow2(numBits) && Pow2(divBits - 1) <= d < Pow2(divBits)
    ensures var shift := numBits - divBits;
      && d * Pow2(shift) < Weight(WIDTH) && d * Pow2(shift) % Weight(WIDTH) == d * Pow2(shift)
      && n < d * Pow2(shift + 1)
  {
    hide Pow2, Weight;
    var shift := numBits - divBits;
    Pow2Add(divBits, shift);
    Pow2Add(divBits - 1, shift + 1);
    Above(Pow2(shift), d, Pow2(divBits));
    Monotone(d, Pow2(divBits - 1), Pow2(shift + 1));
    ModulusIsWeight();
    Pow2Grows(numBits, 256);
    Mod(d * Pow2(shift), d * Pow2(shift), 0, Weight(WIDTH));
  }

  lemma NextPower(d: nat, shift: nat)
    ensures d * Pow2(shift + 1) == 2 * (d * Pow2(shift))
    ensures shift > 0 ==> d * Pow2(shift) / Pow2(1) == d * Pow2(shift - 1)
  {
    assert d * (2 * Pow2(shift)) == 2 * (d * Pow2(shift));
    if shift > 0 {
      assert d * (2 * Pow2(shift - 1)) == 2 * (d * Pow2(shift - 1));
    }
  }

  lemma QuotientStep(q: nat, d: nat, rest: nat, p: nat)
    requires d * p <= rest
    ensures q * d + rest == (q + p) * d + (rest - d * p)
  {
    assert (q + p) * d == q * d + p * d;
  }

  lemma ClearLower(s: seq<Limb>, n: nat)
    requires |s| == WIDTH && (ClearBelow(s, n + 1) || ClearBelow(s, n))
    ensures ClearBelow(s, n)
  {
    hide LimbClear;
    if !ClearBelow(s, n) {
      forall i | 0 <= i < |s| ensures LimbClear(s[i], n - 32 * i) {
        LimbClearLower(s[i], n - 32 * i);
      }
    }
  }

  lemma LimbClearLower(x: Limb, n: int)
    requires LimbClear(x, n + 1)
    ensures LimbClear(x, n)
  {
    hide Pow2;
    if 0 <= n {
      if n < 31 { HalfPower(x, n); } else if n == 31 { Mod(0, 0, 0, Pow2(n)); }
    }
  }

  lemma HalfPower(x: nat, n: nat)
    requires x % Pow2(n + 1) == 0
    ensures x % Pow2(n) == 0
  {
    var q := x / Pow2(n + 1);
    assert x == q * (2 * Pow2(n));
    assert q * (2 * Pow2(n)) == 2 * q * Pow2(n);
    Mod(x, 0, 2 * q, Pow2(n));
  }

  lemma ResultBit(s: seq<Limb>, shift: nat)
    requires |s| == WIDTH && shift < 32 * WIDTH && ClearBelow(s, shift + 1)
    ensures var k := shift / 32; var x := BitOr(s[k], Pow2(shift % 32));
      x < BASE && Val(s[k := x]) == Val(s) + Pow2(shift) && ClearBelow(s[k := x], shift)
  {
    hide Pow2, Val, Weight, BitOr;
    var k, b := shift / 32, shift % 32;
    assert LimbClear(s[k], b + 1);
    LimbBit(s[k], b);
    var x := BitOr(s[k], Pow2(b));
    ValUpdate(s, k, x);
    WeightIsPow2(k);
    Pow2Add(b, 32 * k);
    assert x * Weight(k) == s[k] * Weight(k) + Pow2(b) * Weight(k);
    forall i | 0 <= i < |s| ensures LimbClear(s[k := x][i], shift - 32 * i) {
      if i != k { LimbClearLower(s[i], shift - 32 * i); }
    }
  }

  lemma LimbBit(x: Limb, b: nat)
    requires b < 32 && LimbClear(x, b + 1)
    ensures BitOr(x, Pow2(b)) == x + Pow2(b) < BASE && LimbClear(BitOr(x, Pow2(b)), b)
  {
    hide Pow2, BitOr;
    var p := Pow2(b);
    Pow2Add(1, b);
    PowZero();
    Pow2Base();
    Pow2Add(b + 1, 31 - b);
    Mod(0, 0, 0, Pow2(b + 1));
    LowRoom(x, Pow2(b + 1), Pow2(31 - b));
    var q := x / Pow2(b + 1);
    assert x == q * Pow2(b + 1);
    BitOrAdds(q, p, b + 1);
    assert q * (2 * p) + p == (2 * q + 1) * p;
    ModZero(2 * q + 1, p);
  }

  lemma LimbAbove(s: seq<Limb>, i: nat)
    requires 2 <= i < |s| && s[i] != 0
    ensures Val(s) >= 0x1_0000_0000_0000_0000
  {
    hide Val, Weight;
    assert s == s[..i] + s[i..];
    ValConcat(s[..i], s[i..]);
    Cons(s[i..]);
    WeightAdd(2, i - 2);
    WeightTwo();
    Monotone(Weight(i - 2), 1, Weight(2));
    Monotone(Val(s[i..]), 1, Weight(i));
  }

  lemma WeightTwo()
    ensures Weight(2) == 0x1_0000_0000_0000_0000
  {
    assert Weight(1) == BASE;
  }
}
