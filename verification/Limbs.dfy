/** Numbers as sequences of 32-bit limbs, the lowest first. */
module Limbs {

  const BASE: nat := 0x1_0000_0000

  type Limb = x: nat | x < BASE

  /** The lower 32 bits, and what is above them. */
  function Low(n: nat): (x: Limb)
    ensures x == n % BASE
  {
    n % BASE
  }

  function High(n: nat): (c: nat)
    ensures n == c * BASE + Low(n)
  {
    n / BASE
  }

  function Pow2(n: nat): (p: nat)
    ensures p > 0
  {
    if n == 0 then 1 else 2 * Pow2(n - 1)
  }

  /** The weight of the n-th limb. */
  function Weight(n: nat): (w: nat)
    ensures w > 0
  {
    if n == 0 then 1 else BASE * Weight(n - 1)
  }

  function Val(s: seq<Limb>): nat {
    if s == [] then 0 else Val(s[..|s| - 1]) + s[|s| - 1] * Weight(|s| - 1)
  }

  // ----- Powers -----

  lemma {:induction false} Pow2Add(m: nat, n: nat)
    ensures Pow2(m + n) == Pow2(m) * Pow2(n)
    decreases m
  {
    if m > 0 {
      Pow2Add(m - 1, n);
      assert 2 * (Pow2(m - 1) * Pow2(n)) == 2 * Pow2(m - 1) * Pow2(n);
    }
  }

  lemma {:induction false} Pow2Grows(m: nat, n: nat)
    requires m <= n
    ensures Pow2(m) <= Pow2(n)
    decreases n
  {
    if m < n { Pow2Grows(m, n - 1); }
  }

  lemma Pow2Base()
    ensures Pow2(32) == BASE
  {
    assert Pow2(8) == 256;
    Pow2Add(8, 8);
    assert Pow2(16) == 65536;
    Pow2Add(16, 16);
  }

  lemma {:induction false} WeightIsPow2(n: nat)
    ensures Weight(n) == Pow2(32 * n)
  {
    if n > 0 {
      WeightIsPow2(n - 1);
      Pow2Base();
      Pow2Add(32, 32 * (n - 1));
    }
  }

  lemma {:induction false} WeightAdd(m: nat, n: nat)
    ensures Weight(m + n) == Weight(m) * Weight(n)
    decreases m
  {
    if m > 0 {
      WeightAdd(m - 1, n);
      assert BASE * (Weight(m - 1) * Weight(n)) == BASE * Weight(m - 1) * Weight(n);
    }
  }

  // ----- Values -----

  lemma Snoc(s: seq<Limb>, x: Limb)
    ensures Val(s + [x]) == Val(s) + x * Weight(|s|)
  {
    assert (s + [x])[..|s|] == s;
  }

  lemma {:induction false} ValConcat(a: seq<Limb>, b: seq<Limb>)
    ensures Val(a + b) == Val(a) + Weight(|a|) * Val(b)
    decreases |b|
  {
    if b == [] {
      assert a + b == a;
    } else {
      var n := |b| - 1;
      ValConcat(a, b[..n]);
      assert a + b == (a + b[..n]) + [b[n]];
      Snoc(a + b[..n], b[n]);
      WeightAdd(|a|, n);
      Distribute(Weight(|a|), Val(b[..n]), b[n], Weight(n));
    }
  }

  lemma Distribute(w: nat, v: nat, x: nat, u: nat)
    ensures w * v + x * (w * u) == w * (v + x * u)
  {
    assert x * (w * u) == w * (x * u);
  }

  lemma Cons(s: seq<Limb>)
    requires |s| > 0
    ensures Val(s) == s[0] + BASE * Val(s[1..])
  {
    assert s == [s[0]] + s[1..];
    ValConcat([s[0]], s[1..]);
    Snoc([], s[0]);
    assert [] + [s[0]] == [s[0]];
  }

  lemma LimbBelow(x: Limb, w: nat)
    ensures x * w + w <= BASE * w
  {
    var y: nat := x;
    assert (y + 1) * w == y * w + w;
    Monotone(BASE, y + 1, w);
  }

  lemma {:induction false} ValBelow(s: seq<Limb>)
    ensures Val(s) < Weight(|s|)
    decreases |s|
  {
    if s != [] {
      var n := |s| - 1;
      ValBelow(s[..n]);
      LimbBelow(s[n], Weight(n));
    }
  }

  lemma {:induction false} ValZero(n: nat)
    ensures Val(seq(n, _ => 0)) == 0
  {
    if n > 0 {
      ValZero(n - 1);
      assert seq<Limb>(n, _ => 0)[..n - 1] == seq(n - 1, _ => 0);
    }
  }

  /** The remainder is determined by its range. */
  lemma Mod(a: nat, r: nat, q: int, m: nat)
    requires m > 0 && a == r + q * m && r < m
    ensures a % m == r && a / m == q
  {
    var d := q - a / m;
    assert d * m == q * m - a / m * m;
    assert d >= 1 ==> d * m >= m;
    assert d <= -1 ==> d * m + m <= 0;
  }

  // ----- One step of a carry loop -----

  /** Splitting a column into a limb and a carry keeps the value. */
  lemma CarryStep(done: nat, carry: nat, w: nat, column: nat, before: nat)
    requires done + carry * w == before
    ensures done + Low(carry + column) * w + High(carry + column) * (BASE * w) == before + column * w
  {
    var n := carry + column;
    var d, c := Low(n), High(n);
    Scale(c, BASE, d, w);
    assert n * w == carry * w + column * w;
  }

  lemma Scale(c: nat, b: nat, d: nat, w: nat)
    ensures d * w + c * (b * w) == (c * b + d) * w
  {
  }

  // ----- Bitwise or -----

  function BitOr(x: nat, y: nat): nat
    decreases x + y
  {
    if x == 0 then y else if y == 0 then x else
    2 * BitOr(x / 2, y / 2) + if x % 2 == 1 || y % 2 == 1 then 1 else 0
  }

  lemma {:induction false} BitOrZero(x: nat)
    ensures BitOr(x, 0) == x && BitOr(0, x) == x
  {
  }

  /** Where no bits meet, or is plus. */
  lemma {:induction false} BitOrAdds(q: nat, y: nat, n: nat)
    requires y < Pow2(n)
    ensures BitOr(q * Pow2(n), y) == q * Pow2(n) + y
    decreases n
  {
    if n > 0 && q > 0 && y > 0 {
      var p := Pow2(n - 1);
      assert q * Pow2(n) == 2 * (q * p);
      assert q * p > 0;
      BitOrAdds(q, y / 2, n - 1);
      assert 2 * (q * p) / 2 == q * p;
    }
  }

  // ----- Changing one limb -----

  lemma {:induction false} ValUpdate(s: seq<Limb>, i: nat, x: Limb)
    requires i < |s|
    ensures Val(s[i := x]) + s[i] * Weight(i) == Val(s) + x * Weight(i)
    decreases |s|
  {
    var n := |s| - 1;
    if i < n {
      assert s[i := x][..n] == s[..n][i := x];
      ValUpdate(s[..n], i, x);
    } else {
      assert s[i := x][..n] == s[..n];
    }
  }

  /** Inverting every bit takes a number away from the largest one. */
  lemma {:induction false} ValInverted(s: seq<Limb>, t: seq<Limb>)
    requires |s| == |t| && forall i | 0 <= i < |s| :: t[i] == BASE - 1 - s[i]
    ensures Val(s) + Val(t) == Weight(|s|) - 1
    decreases |s|
  {
    if s != [] {
      var n := |s| - 1;
      ValInverted(s[..n], t[..n]);
      Complement(s[n], t[n], Weight(n));
    }
  }

  lemma Complement(x: nat, y: nat, w: nat)
    requires x + y == BASE - 1
    ensures x * w + y * w + w == BASE * w
  {
    assert x * w + y * w == (x + y) * w;
    assert (BASE - 1) * w + w == BASE * w;
  }

  // ----- Order -----

  lemma ValCompares(a: seq<Limb>, b: seq<Limb>, i: nat)
    requires |a| == |b| && i < |a| && a[i] < b[i] && a[i + 1..] == b[i + 1..]
    ensures Val(a) < Val(b)
  {
    assert a == a[..i] + ([a[i]] + a[i + 1..]) && b == b[..i] + ([b[i]] + b[i + 1..]);
    ValConcat(a[..i], [a[i]] + a[i + 1..]);
    ValConcat(b[..i], [b[i]] + b[i + 1..]);
    Cons([a[i]] + a[i + 1..]);
    Cons([b[i]] + b[i + 1..]);
    assert ([a[i]] + a[i + 1..])[1..] == a[i + 1..] && ([b[i]] + b[i + 1..])[1..] == b[i + 1..];
    ValBelow(a[..i]);
    Above(Weight(i), Val([a[i]] + a[i + 1..]), Val([b[i]] + b[i + 1..]));
  }

  lemma Above(w: nat, x: nat, y: nat)
    requires x < y
    ensures w * x + w <= w * y
  {
    Monotone(y, x + 1, w);
    assert (x + 1) * w == w * x + w;
  }

  // ----- Shifting left -----

  /** Limb j of a number times 2^s, moved up k limbs, as far as its first i limbs go. */
  function LeftLimb(a: seq<Limb>, k: nat, p: nat, i: nat, j: nat): nat
    requires i <= |a|
  {
    (if k <= j && j - k < i then Low(a[j - k] * p) else 0) +
    (if k < j && j - k - 1 < i then High(a[j - k - 1] * p) else 0)
  }

  /** A limb times 2^n splits at the 32nd bit: the lower part ends in n zeros, the upper is the limb's top n bits. */
  lemma Parts(x: Limb, n: nat)
    requires n <= 32
    ensures Low(x * Pow2(n)) % Pow2(n) == 0 && High(x * Pow2(n)) < Pow2(n)
    ensures High(x * Pow2(n)) == x / Pow2(32 - n)
  {
    hide Pow2;
    Pow2Add(n, 32 - n);
    Pow2Base();
    Split(x, Pow2(n), Pow2(32 - n));
  }

  lemma Split(x: Limb, p: nat, t: nat)
    requires p > 0 && t > 0 && p * t == BASE
    ensures Low(x * p) % p == 0 && High(x * p) < p && High(x * p) == x / t && Low(x * p) == x % t * p
  {
    var q: nat, r: nat := x / t, x % t;
    assert x == q * t + r;
    Scale(q, t, r, p);
    assert q * (t * p) == q * BASE;
    Above(p, r, t);
    Mod(x * p, r * p, q, BASE);
    ModZero(r, p);
    Quotient(x, t, p);
  }

  lemma Quotient(x: nat, t: nat, p: nat)
    requires t > 0 && x < p * t
    ensures x / t < p
  {
    var q := x / t;
    assert q * t <= x;
    Monotone(q, p, t);
  }

  lemma Monotone(q: nat, p: nat, t: nat)
    ensures q >= p ==> q * t >= p * t
  {
    if q >= p { assert (q - p) * t >= 0; }
  }

  lemma ModZero(r: nat, p: nat)
    requires p > 0
    ensures r * p % p == 0
  {
    Mod(r * p, 0, r, p);
  }

  /** Each limb takes in what the one below lost, and nothing more is carried. */
  lemma {:induction false} TimesPower(a: seq<Limb>, m: seq<Limb>, p: nat, t: nat, n: nat)
    requires p > 0 && t > 0 && p * t == BASE && n <= |a| == |m|
    requires forall j | 0 <= j < |a| :: m[j] == LeftLimb(a, 0, p, |a|, j)
    ensures Val(m[..n]) + (if n == 0 then 0 else High(a[n - 1] * p)) * Weight(n) == Val(a[..n]) * p
    decreases n
  {
    hide High, Low, Weight;
    if n > 0 {
      TimesPower(a, m, p, t, n - 1);
      var i := n - 1;
      var c := if i == 0 then 0 else High(a[i - 1] * p);
      assert m[..n] == m[..i] + [m[i]] && a[..n] == a[..i] + [a[i]];
      Snoc(m[..i], m[i]);
      Snoc(a[..i], a[i]);
      assert m[i] == Low(a[i] * p) + c;
      TimesStep(Val(m[..i]), c, Weight(i), a[i], p, Val(a[..i]));
      WeightStep(i);
    }
  }

  lemma WeightStep(i: nat)
    ensures Weight(i + 1) == BASE * Weight(i)
  {
  }

  lemma TimesStep(done: nat, c: nat, w: nat, x: nat, p: nat, before: nat)
    requires done + c * w == before * p
    ensures done + (Low(x * p) + c) * w + High(x * p) * (BASE * w) == (before + x * w) * p
  {
    var n := x * p;
    Scale(High(n), BASE, Low(n), w);
    assert (Low(n) + c) * w == Low(n) * w + c * w;
    assert (before + x * w) * p == before * p + n * w;
  }

  /** Shifting left is multiplying by a power of two, modulo the width. */
  lemma LeftValue(a: seq<Limb>, r: seq<Limb>, k: nat, p: nat, t: nat)
    requires p > 0 && t > 0 && p * t == BASE && |r| == |a|
    requires forall j | 0 <= j < |a| :: r[j] == LeftLimb(a, k, p, |a|, j)
    ensures Val(r) == Val(a) * (p * Weight(k)) % Weight(|a|)
  {
    hide Val, Weight, Low, High;
    if k >= |a| {
      LeftAllOut(a, r, k, p);
    } else {
      forall j | 0 <= j < |a| ensures LeftLimb(a, 0, p, |a|, j) < BASE { LeftFits(a, p, t, j); }
      var m: seq<Limb> :=
        seq(|a|, j requires 0 <= j < |a| && LeftLimb(a, 0, p, |a|, j) < BASE => LeftLimb(a, 0, p, |a|, j));
      LeftSome(a, r, m, k, p, t);
    }
  }

  lemma LeftAllOut(a: seq<Limb>, r: seq<Limb>, k: nat, p: nat)
    requires |r| == |a| <= k
    requires forall j | 0 <= j < |a| :: r[j] == LeftLimb(a, k, p, |a|, j)
    ensures Val(r) == Val(a) * (p * Weight(k)) % Weight(|a|)
  {
    hide Val, Weight, Low, High;
    assert r == seq(|a|, _ => 0);
    ValZero(|a|);
    WeightAdd(|a|, k - |a|);
    Multiple(Val(a), p, Weight(k - |a|), Weight(|a|));
    Mod(Val(a) * (p * Weight(k)), 0, Val(a) * p * Weight(k - |a|), Weight(|a|));
  }

  lemma LeftSome(a: seq<Limb>, r: seq<Limb>, m: seq<Limb>, k: nat, p: nat, t: nat)
    requires p > 0 && t > 0 && p * t == BASE && |r| == |a| == |m| && k < |a|
    requires forall j | 0 <= j < |a| :: r[j] == LeftLimb(a, k, p, |a|, j) && m[j] == LeftLimb(a, 0, p, |a|, j)
    ensures Val(r) == Val(a) * (p * Weight(k)) % Weight(|a|)
  {
    hide Val, Weight, Low, High;
    var n := |a| - k;
    LeftPart(a, r, m, k, p);
    TimesPower(a, m, p, t, n);
    TakenApart(a, n);
    WeightAdd(k, n);
    ValBelow(r);
    LeftFinal(Val(a), Val(r), Val(m[..n]), High(a[n - 1] * p), Weight(n), Val(a[..n]), p, Weight(k), Val(a[n..]),
        Weight(|a|));
  }

  lemma LeftPart(a: seq<Limb>, r: seq<Limb>, m: seq<Limb>, k: nat, p: nat)
    requires |r| == |a| == |m| && k < |a|
    requires forall j | 0 <= j < |a| :: r[j] == LeftLimb(a, k, p, |a|, j) && m[j] == LeftLimb(a, 0, p, |a|, j)
    ensures Val(r) == Weight(k) * Val(m[..|a| - k])
  {
    hide Val, Weight, LeftLimb;
    LeftMoved(a, r, m, k, p);
    ValConcat(r[..k], m[..|a| - k]);
    ValZero(k);
  }

  lemma TakenApart(a: seq<Limb>, n: nat)
    requires n <= |a|
    ensures Val(a) == Val(a[..n]) + Weight(n) * Val(a[n..])
  {
    hide Val, Weight;
    assert a == a[..n] + a[n..];
    ValConcat(a[..n], a[n..]);
  }

  lemma LeftFinal(a: nat, r: nat, m: nat, c: nat, w: nat, v: nat, p: nat, u: nat, rest: nat, all: nat)
    requires a == v + w * rest && r == u * m && m + c * w == v * p && all == u * w && r < all
    ensures r == a * (p * u) % all
  {
    LeftSum(m, c, w, v, p, u, rest);
    Mod(a * (p * u), r, c + rest * p, all);
  }

  lemma LeftMoved(a: seq<Limb>, r: seq<Limb>, m: seq<Limb>, k: nat, p: nat)
    requires |r| == |a| == |m| && k < |a|
    requires forall j | 0 <= j < |a| :: r[j] == LeftLimb(a, k, p, |a|, j) && m[j] == LeftLimb(a, 0, p, |a|, j)
    ensures r[..k] == seq(k, _ => 0) && r == r[..k] + m[..|a| - k]
  {
    hide Low, High;
    forall j | k <= j < |a| ensures r[j] == m[j - k] {
      assert LeftLimb(a, k, p, |a|, j) == LeftLimb(a, 0, p, |a|, j - k);
    }
  }

  lemma Multiple(v: nat, p: nat, u: nat, w: nat)
    ensures v * (p * (w * u)) == v * p * u * w
  {
    assert p * (w * u) == (p * u) * w;
    assert v * ((p * u) * w) == (v * (p * u)) * w;
    assert v * (p * u) == v * p * u;
  }

  lemma LeftSum(m: nat, c: nat, w: nat, v: nat, p: nat, u: nat, rest: nat)
    requires m + c * w == v * p
    ensures (v + w * rest) * (p * u) == u * m + (c + rest * p) * (u * w)
  {
    assert (v + w * rest) * (p * u) == (v * p) * u + (w * rest) * (p * u);
    assert (v * p) * u == m * u + c * w * u;
    assert (w * rest) * (p * u) == (rest * p) * (u * w) by { Multiple(rest, p, u, w); }
    assert (c + rest * p) * (u * w) == c * (u * w) + (rest * p) * (u * w);
  }

  lemma LeftFits(a: seq<Limb>, p: nat, t: nat, j: nat)
    requires p > 0 && t > 0 && p * t == BASE && j < |a|
    ensures LeftLimb(a, 0, p, |a|, j) < BASE
  {
    hide Low, High;
    Split(a[j], p, t);
    if j > 0 { Split(a[j - 1], p, t); }
    LowRoom(Low(a[j] * p), p, t);
  }

  /** A limb that ends in zeros leaves room for them. */
  lemma LowRoom(x: Limb, p: nat, t: nat)
    requires p > 0 && t > 0 && p * t == BASE && x % p == 0
    ensures x + p <= BASE
  {
    var q := x / p;
    assert x == q * p;
    Quotient(x, p, t);
    Above(p, q, t);
  }

  // ----- Shifting right -----

  /**
    Limb j of a number moved down k limbs and divided by p, with t the complement of p, as
    far as its first i limbs go.
  */
  function RightLimb(a: seq<Limb>, k: nat, p: nat, t: nat, i: nat, j: nat): nat
    requires p > 0 && i <= |a|
  {
    (if j + k < i then a[j + k] / p else 0) + (if j + k + 1 < i then Low(a[j + k + 1] * t) else 0)
  }

  lemma {:induction false} DividePower(x: seq<Limb>, r: seq<Limb>, p: nat, t: nat)
    requires p > 0 && t > 0 && t * p == BASE && |r| == |x|
    requires forall j | 0 <= j < |x| :: r[j] == RightLimb(x, 0, p, t, |x|, j)
    ensures Val(r) == Val(x) / p
    decreases |x|
  {
    hide Low, Val;
    if x == [] {
      EmptyValue();
    } else {
      Cons(x);
      Cons(r);
      var y := x[1..];
      forall j | 0 <= j < |y| ensures r[1..][j] == RightLimb(y, 0, p, t, |y|, j) {
        assert RightLimb(x, 0, p, t, |x|, j + 1) == RightLimb(y, 0, p, t, |y|, j);
      }
      DividePower(y, r[1..], p, t);
      if y == [] {
        EmptyValue();
        DivideStep(x[0], 0, p, t, 0);
      } else {
        Cons(y);
        Split(y[0], t, p);
        ModAdd(y[0], Val(y[1..]), p, t);
        DivideStep(x[0], Val(y), p, t, Val(y) % p);
      }
    }
  }

  lemma EmptyValue()
    ensures Val([]) == 0
  {
  }

  lemma ModAdd(x: nat, v: nat, p: nat, t: nat)
    requires p > 0 && t * p == BASE
    ensures (x + BASE * v) % p == x % p
  {
    var q, r := x / p, x % p;
    assert x == q * p + r;
    assert BASE * v == (t * v) * p;
    assert (q + t * v) * p == q * p + (t * v) * p;
    Mod(x + BASE * v, r, q + t * v, p);
  }

  lemma DivideStep(x: nat, v: nat, p: nat, t: nat, r: nat)
    requires p > 0 && t * p == BASE && r == v % p
    ensures (x + BASE * v) / p == x / p + r * t + BASE * (v / p)
  {
    var q, y := x / p, x % p;
    assert x == q * p + y;
    assert BASE * v == (t * v) * p;
    assert (q + t * v) * p == q * p + (t * v) * p;
    Mod(x + BASE * v, y, q + t * v, p);
    var w := v / p;
    assert v == w * p + r;
    assert t * v == t * (w * p) + t * r;
    assert t * (w * p) == (t * p) * w;
  }

  lemma DropLimbs(a: seq<Limb>, k: nat)
    requires k <= |a|
    ensures Val(a[k..]) == Val(a) / Weight(k)
  {
    hide Val, Weight;
    assert a == a[..k] + a[k..];
    ValConcat(a[..k], a[k..]);
    ValBelow(a[..k]);
    Mod(Val(a), Val(a[..k]), Val(a[k..]), Weight(k));
  }

  lemma DivideTwice(v: nat, a: nat, b: nat)
    requires a > 0 && b > 0
    ensures a * b > 0 && v / a / b == v / (a * b)
  {
    var q, r := v / a, v % a;
    var s, u := q / b, q % b;
    assert v == q * a + r && q == s * b + u;
    assert (s * b + u) * a == s * (a * b) + u * a;
    assert u * a + r < a * b by { Above(a, u, b); }
    Mod(v, u * a + r, s, a * b);
  }

  /** Shifting right is dividing by a power of two. */
  lemma RightValue(a: seq<Limb>, r: seq<Limb>, k: nat, p: nat, t: nat)
    requires p > 0 && t > 0 && t * p == BASE && |r| == |a|
    requires forall j | 0 <= j < |a| :: r[j] == RightLimb(a, k, p, t, |a|, j)
    ensures Weight(k) * p > 0 && Val(r) == Val(a) / (Weight(k) * p)
  {
    hide Val, Weight, Low, RightLimb;
    if k >= |a| { RightAllOut(a, r, k, p, t); } else { RightSome(a, r, k, p, t); }
  }

  lemma RightAllOut(a: seq<Limb>, r: seq<Limb>, k: nat, p: nat, t: nat)
    requires p > 0 && |r| == |a| <= k
    requires forall j | 0 <= j < |a| :: r[j] == RightLimb(a, k, p, t, |a|, j)
    ensures Weight(k) * p > 0 && Val(r) == Val(a) / (Weight(k) * p)
  {
    hide Val, Weight, Low;
    assert r == seq(|a|, _ => 0);
    ValZero(|a|);
    ValBelow(a);
    WeightAdd(|a|, k - |a|);
    Smaller(Val(a), Weight(|a|), Weight(k - |a|), p);
  }

  lemma RightSome(a: seq<Limb>, r: seq<Limb>, k: nat, p: nat, t: nat)
    requires p > 0 && t > 0 && t * p == BASE && |r| == |a| && k < |a|
    requires forall j | 0 <= j < |a| :: r[j] == RightLimb(a, k, p, t, |a|, j)
    ensures Weight(k) * p > 0 && Val(r) == Val(a) / (Weight(k) * p)
  {
    hide Val, Weight, Low;
    var n := |a| - k;
    var x := a[k..];
    assert r[n..] == seq(k, _ => 0);
    assert r == r[..n] + r[n..];
    ValConcat(r[..n], r[n..]);
    ValZero(k);
    forall j | 0 <= j < n ensures r[..n][j] == RightLimb(x, 0, p, t, n, j) {
      assert RightLimb(a, k, p, t, |a|, j) == RightLimb(x, 0, p, t, n, j);
    }
    DividePower(x, r[..n], p, t);
    DropLimbs(a, k);
    DivideTwice(Val(a), Weight(k), p);
  }

  lemma Smaller(v: nat, w: nat, u: nat, p: nat)
    requires v < w && u > 0 && p > 0
    ensures w * u * p > 0 && v / (w * u * p) == 0
  {
    assert u * p >= 1;
    assert w * (u * p) >= w;
    assert w * (u * p) == w * u * p;
    Mod(v, v, 0, w * u * p);
  }

  // ----- The highest bit -----

  /** A number whose top limb has its highest bit at n - 1. */
  lemma HighestBit(s: seq<Limb>, pos: nat, n: nat)
    requires pos < |s| && n > 0 && Pow2(n - 1) <= s[pos] < Pow2(n) && forall i | pos < i < |s| :: s[i] == 0
    ensures Pow2(32 * pos + n - 1) <= Val(s) < Pow2(32 * pos + n)
  {
    hide Val, Weight, Pow2;
    var low, high := s[..pos], s[pos + 1..];
    assert s == (low + [s[pos]]) + high && high == seq(|high|, _ => 0);
    ValConcat(low + [s[pos]], high);
    ValZero(|high|);
    Snoc(low, s[pos]);
    ValBelow(low);
    WeightIsPow2(pos);
    Pow2Add(n - 1, 32 * pos);
    Pow2Add(n, 32 * pos);
    var w := Weight(pos);
    Monotone(s[pos], Pow2(n - 1), w);
    Above(w, s[pos], Pow2(n));
  }
}
