/** Base58 strings of bytes: numbers in base 58 and 256, with leading zeros kept apart. */
module Base58 {

  function Pow(b: nat, n: nat): (p: nat)
    ensures b > 0 ==> p > 0
  {
    if n == 0 then 1 else b * Pow(b, n - 1)
  }

  ghost predicate Digits(b: nat, s: seq<nat>) {
    forall i | 0 <= i < |s| :: s[i] < b
  }

  /** The number that digits stand for, the highest first. */
  function Horner(b: nat, s: seq<nat>): nat {
    if s == [] then 0 else Horner(b, s[..|s| - 1]) * b + s[|s| - 1]
  }

  /** The digits of a number, without leading zeros. */
  function Expand(b: nat, v: nat): (s: seq<nat>)
    requires b > 1
    ensures v > 0 ==> |s| > 0
    decreases v
  {
    if v == 0 then [] else
    Smaller(v, b);
    Expand(b, v / b) + [v % b]
  }

  lemma Smaller(v: nat, b: nat)
    requires b > 1 && v > 0
    ensures v / b < v && v == v / b * b + v % b
  {
    var q := v / b;
    assert v == q * b + v % b;
    Mono(2, b, q);
  }

  // ----- Arithmetic -----

  lemma {:induction false} PowAdd(b: nat, m: nat, n: nat)
    ensures Pow(b, m + n) == Pow(b, m) * Pow(b, n)
    decreases m
  {
    if m > 0 {
      PowAdd(b, m - 1, n);
      assert b * (Pow(b, m - 1) * Pow(b, n)) == b * Pow(b, m - 1) * Pow(b, n);
    }
  }

  lemma {:induction false} PowGrows(b: nat, m: nat, n: nat)
    requires b > 0 && m <= n
    ensures Pow(b, m) <= Pow(b, n)
    decreases n
  {
    if m < n {
      PowGrows(b, m, n - 1);
      AtLeast(b, Pow(b, n - 1));
    }
  }

  lemma AtLeast(b: nat, p: nat)
    requires b > 0
    ensures b * p >= p
  {
    assert (b - 1) * p >= 0;
    assert (b - 1) * p == b * p - p;
  }

  lemma Mono(x: nat, y: nat, w: nat)
    ensures x <= y ==> x * w <= y * w
  {
    if x <= y { assert (y - x) * w >= 0; }
  }

  lemma Both(x: nat, y: nat, z: nat, w: nat)
    requires x <= z && y <= w
    ensures x * y <= z * w
  {
    Mono(x, z, y);
    Mono(y, w, z);
  }

  lemma Unique(q: int, r: nat, q2: int, r2: nat, b: nat)
    requires r < b && r2 < b && q * b + r == q2 * b + r2
    ensures q == q2 && r == r2
  {
    var d := q - q2;
    assert d * b == q * b - q2 * b;
    assert d >= 1 ==> d * b >= b;
    assert d <= -1 ==> d * b + b <= 0;
  }

  // ----- Digits and numbers -----

  lemma Snoc(b: nat, s: seq<nat>, x: nat)
    ensures Horner(b, s + [x]) == Horner(b, s) * b + x
  {
    assert (s + [x])[..|s|] == s;
  }

  lemma {:induction false} HornerConcat(b: nat, s: seq<nat>, t: seq<nat>)
    ensures Horner(b, s + t) == Horner(b, s) * Pow(b, |t|) + Horner(b, t)
    decreases |t|
  {
    if t == [] {
      assert s + t == s;
    } else {
      var n := |t| - 1;
      HornerConcat(b, s, t[..n]);
      assert s + t == (s + t[..n]) + [t[n]];
      Snoc(b, s + t[..n], t[n]);
      Spread(Horner(b, s), Pow(b, n), Horner(b, t[..n]), b);
    }
  }

  lemma Spread(h: nat, p: nat, k: nat, b: nat)
    ensures (h * p + k) * b == h * (b * p) + k * b
  {
    assert h * p * b == h * (b * p);
    assert (h * p + k) * b == h * p * b + k * b;
  }

  lemma {:induction false} HornerBelow(b: nat, s: seq<nat>)
    requires b > 0 && Digits(b, s)
    ensures Horner(b, s) < Pow(b, |s|)
    decreases |s|
  {
    if s != [] {
      var n := |s| - 1;
      HornerBelow(b, s[..n]);
      Mono(Horner(b, s[..n]) + 1, Pow(b, n), b);
      assert (Horner(b, s[..n]) + 1) * b == Horner(b, s[..n]) * b + b;
    }
  }

  lemma {:induction false} HornerZeros(b: nat, n: nat)
    ensures Horner(b, seq(n, _ => 0)) == 0
  {
    if n > 0 {
      HornerZeros(b, n - 1);
      assert seq<nat>(n, _ => 0)[..n - 1] == seq(n - 1, _ => 0);
    }
  }

  lemma NoDigits(b: nat)
    ensures Horner(b, []) == 0
  {
  }

  /** Expanding and reading again gives the number back. */
  lemma {:induction false} ExpandRight(b: nat, v: nat)
    requires b > 1
    ensures var s := Expand(b, v);
      Horner(b, s) == v && Digits(b, s) && (s != [] ==> s[0] != 0)
    decreases v
  {
    hide Horner;
    if v == 0 {
      NoDigits(b);
    } else {
      Smaller(v, b);
      ExpandRight(b, v / b);
      Snoc(b, Expand(b, v / b), v % b);
    }
  }

  /** Digits that do not start with zero are the digits of their number. */
  lemma {:induction false} ExpandUnique(b: nat, s: seq<nat>)
    requires b > 1 && Digits(b, s) && (s != [] ==> s[0] != 0)
    ensures Expand(b, Horner(b, s)) == s
    decreases |s|
  {
    if s != [] {
      var n := |s| - 1;
      var h := Horner(b, s[..n]);
      ExpandUnique(b, s[..n]);
      var v := h * b + s[n];
      assert v > 0 by { if n > 0 { AtLeast(b, h); NotZero(b, s[..n]); } }
      Smaller(v, b);
      Unique(v / b, v % b, h, s[n], b);
      assert s == s[..n] + [s[n]];
    }
  }

  lemma {:induction false} NotZero(b: nat, s: seq<nat>)
    requires b > 0 && s != [] && s[0] != 0
    ensures Horner(b, s) > 0
    decreases |s|
  {
    if |s| > 1 {
      NotZero(b, s[..|s| - 1]);
      AtLeast(b, Horner(b, s[..|s| - 1]));
    }
  }

  /** A buffer that holds a number ends in its digits, and the rest is zeros. */
  lemma Padded(b: nat, buf: seq<nat>, length: nat)
    requires b > 1 && Digits(b, buf) && length <= |buf|
    requires (forall i | 0 <= i < |buf| - length :: buf[i] == 0) && (length > 0 ==> buf[|buf| - length] != 0)
    ensures Expand(b, Horner(b, buf)) == buf[|buf| - length..]
  {
    hide Horner, Expand, Pow;
    var n := |buf| - length;
    assert buf == buf[..n] + buf[n..] && buf[..n] == seq(n, _ => 0);
    HornerConcat(b, buf[..n], buf[n..]);
    HornerZeros(b, n);
    ExpandUnique(b, buf[n..]);
  }

  // ----- Buffer sizes -----

  /** 138/100 digits of base 58 and one more are enough for a byte string. */
  lemma {:induction false} Fits58(m: nat)
    ensures Pow(256, m) <= Pow(58, m * 138 / 100 + 1)
  {
    hide Pow;
    if m >= 8 {
      Fits58(m - 8);
      EightBytes();
      PowAdd(256, 8, m - 8);
      PowAdd(58, 11, (m - 8) * 138 / 100 + 1);
      Both(Pow(256, 8), Pow(256, m - 8), Pow(58, 11), Pow(58, (m - 8) * 138 / 100 + 1));
      PowGrows(58, 11 + ((m - 8) * 138 / 100 + 1), m * 138 / 100 + 1);
    } else {
      FewBytes(m);
    }
  }

  lemma PowStep(b: nat, n: nat)
    ensures Pow(b, n + 1) == b * Pow(b, n)
  {
  }

  lemma Powers58()
    ensures Pow(58, 1) == 58 && Pow(58, 2) == 3364 && Pow(58, 3) == 195112 && Pow(58, 4) == 11316496
    ensures Pow(58, 5) == 656356768 && Pow(58, 6) == 38068692544 && Pow(58, 7) == 2207984167552
    ensures Pow(58, 8) == 128063081718016
  {
    hide Pow;
    One(58);
    PowStep(58, 0);
    PowStep(58, 1);
    PowStep(58, 2);
    PowStep(58, 3);
    PowStep(58, 4);
    PowStep(58, 5);
    PowStep(58, 6);
    PowStep(58, 7);
  }

  lemma Powers256()
    ensures Pow(256, 1) == 256 && Pow(256, 2) == 65536 && Pow(256, 3) == 16777216 && Pow(256, 4) == 0x1_0000_0000
    ensures Pow(256, 5) == 0x100_0000_0000 && Pow(256, 6) == 0x1_0000_0000_0000 && Pow(256, 7) == 0x100_0000_0000_0000
    ensures Pow(256, 8) == 0x1_0000_0000_0000_0000
  {
    hide Pow;
    One(256);
    PowStep(256, 0);
    PowStep(256, 1);
    PowStep(256, 2);
    PowStep(256, 3);
    PowStep(256, 4);
    PowStep(256, 5);
    PowStep(256, 6);
    PowStep(256, 7);
  }

  lemma EightBytes()
    ensures Pow(256, 8) <= Pow(58, 11)
  {
    hide Pow;
    Powers58();
    Powers256();
    PowAdd(58, 8, 3);
  }

  lemma FewBytes(m: nat)
    requires m < 8
    ensures Pow(256, m) <= Pow(58, m * 138 / 100 + 1)
  {
    hide Pow;
    Powers58();
    Powers256();
    PowAdd(58, 8, 1);
    PowAdd(58, 8, 2);
    One(256);
  }

  lemma One(b: nat)
    ensures Pow(b, 0) == 1
  {
  }

  /** 733/1000 bytes and one more are enough for a string of base-58 digits. */
  lemma {:induction false} Fits256(n: nat)
    ensures Pow(58, n) <= Pow(256, n * 733 / 1000 + 1)
  {
    hide Pow;
    if n >= 71 {
      Fits256(n - 71);
      ManyDigits();
      PowAdd(58, 71, n - 71);
      PowAdd(256, 52, (n - 71) * 733 / 1000 + 1);
      Both(Pow(58, 71), Pow(58, n - 71), Pow(256, 52), Pow(256, (n - 71) * 733 / 1000 + 1));
      PowGrows(256, 52 + ((n - 71) * 733 / 1000 + 1), n * 733 / 1000 + 1);
    } else {
      FewDigits(n / 15, n % 15);
    }
  }

  lemma ManyDigits()
    ensures Pow(58, 71) <= Pow(256, 52)
  {
    hide Pow;
    Powers58();
    Powers256();
    PowAdd(58, 8, 8);
    assert Pow(58, 16) == 16400152899115243850138976256;
    PowAdd(58, 16, 16);
    assert Pow(58, 32) == 268965015114358137726910587140455987105619365599731777536;
    PowAdd(58, 32, 32);
    assert Pow(58, 64) ==
      72342179355466901471258927612150153907721848234316445933056526044582001260898145151856420451025374266490194231296;
    PowAdd(58, 64, 7);
    PowAdd(256, 8, 8);
    PowAdd(256, 16, 16);
    PowAdd(256, 32, 16);
    PowAdd(256, 48, 4);
  }

  lemma {:induction false} Blocks(a: nat)
    ensures Pow(58, 15 * a) <= Pow(256, 11 * a)
  {
    hide Pow;
    if a == 0 {
      One(58);
      One(256);
    } else {
      Blocks(a - 1);
      FifteenDigits();
      PowAdd(58, 15, 15 * (a - 1));
      PowAdd(256, 11, 11 * (a - 1));
      Both(Pow(58, 15), Pow(58, 15 * (a - 1)), Pow(256, 11), Pow(256, 11 * (a - 1)));
    }
  }

  lemma FifteenDigits()
    ensures Pow(58, 15) <= Pow(256, 11)
  {
    hide Pow;
    Powers58();
    Powers256();
    PowAdd(58, 8, 7);
    PowAdd(256, 8, 3);
  }

  lemma UpToFourteen(b: nat)
    requires b < 15
    ensures Pow(58, b) <= Pow(256, (b * 733 + 999) / 1000)
  {
    hide Pow;
    Powers58();
    Powers256();
    One(58);
    One(256);
    if b > 8 {
      PowAdd(58, 8, b - 8);
      PowAdd(256, 8, 1);
      PowAdd(256, 8, 2);
      PowAdd(256, 8, 3);
    }
  }

  lemma FewDigits(a: nat, b: nat)
    requires a < 5 && b < 15
    ensures Pow(58, 15 * a + b) <= Pow(256, (15 * a + b) * 733 / 1000 + 1)
  {
    hide Pow;
    Blocks(a);
    UpToFourteen(b);
    var c := (b * 733 + 999) / 1000;
    PowAdd(58, 15 * a, b);
    PowAdd(256, 11 * a, c);
    Both(Pow(58, 15 * a), Pow(58, b), Pow(256, 11 * a), Pow(256, c));
    assert 11 * a + c <= (15 * a + b) * 733 / 1000 + 1;
    PowGrows(256, 11 * a + c, (15 * a + b) * 733 / 1000 + 1);
  }
}
