/** Difficulty targets in the compact 32-bit format, and the work a block stands for. */
module CompactTargets {
  import opened Limbs
  import opened ArithUint256

  /** 256 to a power. */
  function Bytes(n: nat): (p: nat)
    ensures p > 0
  {
    if n == 0 then 1 else 256 * Bytes(n - 1)
  }

  lemma {:induction false} BytesIsPow2(n: nat)
    ensures Bytes(n) == Pow2(8 * n)
  {
    if n > 0 {
      BytesIsPow2(n - 1);
      Pow2Add(8, 8 * (n - 1));
      assert Pow2(8) == 256;
    }
  }

  lemma {:induction false} BytesAdd(m: nat, n: nat)
    ensures Bytes(m + n) == Bytes(m) * Bytes(n)
    decreases m
  {
    if m > 0 {
      BytesAdd(m - 1, n);
      assert 256 * (Bytes(m - 1) * Bytes(n)) == 256 * Bytes(m - 1) * Bytes(n);
    }
  }

  lemma {:induction false} BytesGrow(m: nat, n: nat)
    requires m <= n
    ensures Bytes(m) <= Bytes(n)
    decreases n
  {
    if m < n { BytesGrow(m, n - 1); }
  }

  lemma BytesOfModulus()
    ensures Bytes(32) == MODULUS && Bytes(0) == 1 && Bytes(1) == 256 && Bytes(2) == 65536 && Bytes(3) == 0x100_0000
  {
    ModulusIsWeight();
    BytesIsPow2(32);
  }

  function Times(v: nat, p: nat): nat {
    v * p
  }

  function Over(v: nat, p: nat): nat
    requires p > 0
  {
    v / p
  }

  datatype Target = Target(value: nat, negative: bool, overflow: bool)

  function Size(c: nat): nat {
    c / 0x100_0000
  }

  function Mantissa(c: nat): nat {
    c % 0x80_0000
  }

  predicate Sign(c: nat) {
    c / 0x80_0000 % 2 == 1
  }

  /** The mantissa as far as it counts: sizes below three cut it off. */
  function Kept(c: nat): nat {
    if Size(c) <= 3 then Over(Mantissa(c), Bytes(3 - Size(c))) else Mantissa(c)
  }

  function SetCompact(c: nat): Target {
    var size, word := Size(c), Kept(c);
    Target(
      if size <= 3 then word else word * Bytes(size - 3) % MODULUS,
      word != 0 && Sign(c),
      word != 0 && (size > 34 || (word > 0xff && size > 33) || (word > 0xffff && size > 32)))
  }

  /** The number the format stands for, without a limit. */
  function Exact(c: nat): nat {
    if Size(c) <= 3 then Kept(c) else Times(Mantissa(c), Bytes(Size(c) - 3))
  }

  /** The overflow flag is right: it is set exactly when the number does not fit into 256 bits. */
  lemma OverflowExact(c: nat)
    ensures SetCompact(c).overflow <==> Exact(c) >= MODULUS
    ensures !SetCompact(c).overflow ==> SetCompact(c).value == Exact(c)
    ensures SetCompact(c).value == Exact(c) % MODULUS
  {
    hide Bytes;
    BytesOfModulus();
    if Size(c) <= 3 {
      KeptBelow(c);
      assert Exact(c) % MODULUS == Exact(c);
    } else {
      LargeProduct(Size(c), Mantissa(c));
    }
  }

  lemma LargeProduct(size: nat, word: nat)
    requires size > 3 && word < 0x80_0000
    ensures word * Bytes(size - 3) >= MODULUS <==>
      word != 0 && (size > 34 || (word > 0xff && size > 33) || (word > 0xffff && size > 32))
    ensures word * Bytes(size - 3) < MODULUS ==> word * Bytes(size - 3) % MODULUS == word * Bytes(size - 3)
  {
    hide Bytes;
    BytesOfModulus();
    if size <= 32 {
      BytesGrow(size - 3, 29);
      BytesAdd(3, 29);
      Monotone(Bytes(29), Bytes(size - 3), word);
      Above(Bytes(29), word, Bytes(3));
    } else if size == 33 {
      BytesAdd(2, 30);
      Bounds(word, 65536, Bytes(30));
    } else if size == 34 {
      BytesAdd(1, 31);
      Bounds(word, 256, Bytes(31));
    } else {
      BytesGrow(32, size - 3);
      Bounds(word, 1, Bytes(size - 3));
    }
  }

  lemma Bounds(word: nat, limit: nat, p: nat)
    requires p > 0
    ensures word >= limit <==> word * p >= limit * p
  {
    Monotone(word, limit, p);
    Above(p, word, if word < limit then limit else word + 1);
  }

  lemma KeptBelow(c: nat)
    requires Size(c) <= 3
    ensures Kept(c) < 0x80_0000
  {
    assert Mantissa(c) / Bytes(3 - Size(c)) <= Mantissa(c);
  }

  // ----- Encoding -----

  function Bits(v: nat): nat {
    if v == 0 then 0 else 1 + Bits(v / 2)
  }

  /** The number of bytes. */
  function ByteSize(v: nat): nat {
    (Bits(v) + 7) / 8
  }

  /** The leading three bytes of a number of a size. */
  function LeadingOf(v: nat, size: nat): nat {
    if size <= 3 then Times(v, Bytes(3 - size)) else Over(v, Bytes(size - 3))
  }

  function Leading(v: nat): nat {
    LeadingOf(v, ByteSize(v))
  }

  /** A mantissa whose top bit would read as the sign is moved down a byte. */
  function GetCompact(v: nat, negative: bool): nat {
    var size, word := ByteSize(v), Leading(v);
    var (m, n) := if word / 0x80_0000 % 2 == 1 then (word / 256, size + 1) else (word, size);
    m + n * 0x100_0000 + if negative && m != 0 then 0x80_0000 else 0
  }

  lemma {:induction false} BitsRight(v: nat)
    ensures v < Pow2(Bits(v)) && (v > 0 ==> Pow2(Bits(v) - 1) <= v)
  {
    if v > 0 { BitsRight(v / 2); }
  }

  lemma ByteSizeRight(v: nat)
    ensures v < Bytes(ByteSize(v)) && (v > 0 ==> ByteSize(v) > 0 && Bytes(ByteSize(v) - 1) <= v)
  {
    hide Bytes, Pow2;
    BitsRight(v);
    var n := ByteSize(v);
    BytesIsPow2(n);
    Pow2Grows(Bits(v), 8 * n);
    if v > 0 {
      BytesIsPow2(n - 1);
      Pow2Grows(8 * (n - 1), Bits(v) - 1);
    }
  }

  /** The size is determined by its range. */
  lemma ByteSizeIs(v: nat, n: nat)
    requires n > 0 && Bytes(n - 1) <= v < Bytes(n)
    ensures ByteSize(v) == n
  {
    hide Bytes;
    ByteSizeRight(v);
    if ByteSize(v) < n { BytesGrow(ByteSize(v), n - 1); }
    if ByteSize(v) > n { BytesGrow(n, ByteSize(v) - 1); }
  }

  lemma LeadingRight(v: nat)
    requires v > 0
    ensures 65536 <= Leading(v) < 0x100_0000
    ensures ByteSize(v) >= 3 ==> Leading(v) * Bytes(ByteSize(v) - 3) <= v
  {
    hide Bytes;
    ByteSizeRight(v);
    BytesOfModulus();
    var n := ByteSize(v);
    if n <= 3 {
      var p := Bytes(3 - n);
      BytesAdd(n - 1, 3 - n);
      BytesAdd(n, 3 - n);
      Monotone(v, Bytes(n - 1), p);
      Above(p, v, Bytes(n));
    } else {
      BytesAdd(2, n - 3);
      BytesAdd(3, n - 3);
      DivideBounds(v, Bytes(n - 3), 65536, 0x100_0000);
    }
  }

  lemma DivideBounds(v: nat, p: nat, low: nat, high: nat)
    requires p > 0 && low * p <= v < high * p
    ensures low <= v / p < high && v / p * p <= v
  {
    Quotient(v, p, high);
    assert v == v / p * p + v % p;
    if v / p < low { Above(p, v / p, low); }
  }

  /** The parts of an encoded number can be read off again. */
  lemma Packed(m: nat, n: nat, sign: bool)
    requires m < 0x80_0000
    ensures var c := m + n * 0x100_0000 + if sign then 0x80_0000 else 0;
      Size(c) == n && Mantissa(c) == m && Sign(c) == sign
  {
  }

  /** What decoding an encoded number gives: all of it up to three bytes, else its leading bytes. */
  function Rounded(v: nat): nat {
    var size, word := ByteSize(v), Leading(v);
    if size < 3 || (size == 3 && word < 0x80_0000) then v
    else if word >= 0x80_0000 then word / 256 * Bytes(size - 2)
    else word * Bytes(size - 3)
  }

  lemma RoundedExact(v: nat, negative: bool)
    requires v > 0
    ensures var c := GetCompact(v, negative); Exact(c) == Rounded(v) && Kept(c) != 0 && Sign(c) == negative
  {
    hide Bytes, Bits, ByteSize;
    var size, word := ByteSize(v), Leading(v);
    LeadingRight(v);
    BytesOfModulus();
    if word >= 0x80_0000 {
      Packed(word / 256, size + 1, negative);
      if size < 3 { CutBack(v, size); }
    } else {
      Packed(word, size, negative);
      if size <= 3 { DivideBack(v, Bytes(3 - size)); }
    }
  }

  lemma DivideBack(v: nat, p: nat)
    requires p > 0
    ensures v * p / p == v
  {
    Mod(v * p, 0, v, p);
  }

  lemma CutBack(v: nat, size: nat)
    requires size < 3
    ensures v * Bytes(3 - size) / 256 / Bytes(3 - (size + 1)) == v
  {
    hide Bytes;
    BytesOfModulus();
    BytesAdd(1, 2 - size);
    DivideTwice(v * Bytes(3 - size), 256, Bytes(2 - size));
    DivideBack(v, Bytes(3 - size));
  }

  /** A number made of a three-byte word and zeros has that word as its leading bytes. */
  lemma LeadingOfProduct(word: nat, size: nat)
    requires 65536 <= word < 0x100_0000 && size >= 3
    ensures ByteSize(word * Bytes(size - 3)) == size && Leading(word * Bytes(size - 3)) == word
  {
    hide Bytes, Bits, ByteSize;
    BytesOfModulus();
    var p := Bytes(size - 3);
    BytesAdd(2, size - 3);
    BytesAdd(3, size - 3);
    Monotone(word, 65536, p);
    Above(p, word, 0x100_0000);
    ByteSizeIs(word * p, size);
    DivideBack(word, p);
  }

  lemma RoundedWord(v: nat)
    requires v > 0 && ByteSize(v) >= 3
    ensures var word := Leading(v);
      Rounded(v) == (if word >= 0x80_0000 then word / 256 * 256 else word) * Bytes(ByteSize(v) - 3)
  {
    hide Bytes, Bits, ByteSize;
    BytesOfModulus();
    LeadingRight(v);
    var size, word := ByteSize(v), Leading(v);
    if word >= 0x80_0000 {
      BytesAdd(1, size - 3);
      assert word / 256 * (256 * Bytes(size - 3)) == word / 256 * 256 * Bytes(size - 3);
    }
  }

  lemma RoundedDown(v: nat)
    requires v > 0
    ensures Rounded(v) <= v && GetCompact(Rounded(v), false) == GetCompact(v, false)
    ensures GetCompact(Rounded(v), true) == GetCompact(v, true)
  {
    hide Bytes, Bits, ByteSize, Leading;
    LeadingRight(v);
    var size, word := ByteSize(v), Leading(v);
    if size >= 3 {
      RoundedWord(v);
      var kept := if word >= 0x80_0000 then word / 256 * 256 else word;
      Monotone(word, kept, Bytes(size - 3));
      LeadingOfProduct(kept, size);
    }
  }

  lemma MultipleBelow(v: nat, w: nat, q: nat, p: nat)
    requires q * p <= v < (w + 1) * p
    ensures q * p <= w * p
  {
    Monotone(q, w + 1, p);
    Monotone(w, q, p);
  }

  lemma MantissaBelow(m: nat, w: nat, small: nat, p: nat)
    requires m < 0x80_0000 && w >= 0x8000 && small <= p
    ensures m * small <= w * (256 * p)
  {
    Monotone(0x80_0000, m, small);
    Monotone(p, small, 0x80_0000);
    Monotone(w, 0x8000, 256 * p);
  }

  lemma Regroup(m: nat, a: nat, b: nat)
    ensures m * (a * b) == m * a * b
  {
  }

  /** With a mantissa of 23 bits, not above v and so not above the multiple of 256^n just below v. */
  lemma NotBetween(v: nat, w: nat, n: nat, m: nat, k: nat)
    requires v < (w + 1) * Bytes(n) && w >= 0x8000 && m < 0x80_0000 && Times(m, Bytes(k)) <= v
    ensures Times(m, Bytes(k)) <= Times(w, Bytes(n))
  {
    hide Bytes;
    if k >= n {
      BytesAdd(k - n, n);
      Regroup(m, Bytes(k - n), Bytes(n));
      MultipleBelow(v, w, m * Bytes(k - n), Bytes(n));
    } else {
      BytesGrow(k, n - 1);
      BytesAdd(1, n - 1);
      BytesOfModulus();
      MantissaBelow(m, w, Bytes(k), Bytes(n - 1));
    }
  }

  /** Every number the format stands for is a mantissa of 23 bits and a power of 256. */
  lemma ExactParts(c: nat) returns (m: nat, k: nat)
    ensures m < 0x80_0000 && Exact(c) == Times(m, Bytes(k))
  {
    hide Bytes;
    BytesOfModulus();
    if Size(c) <= 3 {
      KeptBelow(c);
      m, k := Kept(c), 0;
    } else {
      m, k := Mantissa(c), Size(c) - 3;
    }
  }

  /** Nothing the format stands for lies between the rounded number and the number. */
  lemma RoundedGreatest(v: nat, c: nat)
    requires v > 0 && Exact(c) <= v
    ensures Exact(c) <= Rounded(v)
  {
    hide Bytes, Bits, ByteSize, Exact;
    var size, word := ByteSize(v), Leading(v);
    LeadingRight(v);
    BytesOfModulus();
    var m, k := ExactParts(c);
    if size >= 3 {
      var p := Bytes(size - 3);
      NextWord(v, p);
      if word >= 0x80_0000 {
        BytesAdd(1, size - 3);
        NextPage(word, p);
        NotBetween(v, word / 256, size - 2, m, k);
      } else {
        NotBetween(v, word, size - 3, m, k);
      }
    }
  }

  lemma NextWord(v: nat, p: nat)
    requires p > 0
    ensures v < (v / p + 1) * p
  {
    assert v == v / p * p + v % p;
  }

  lemma NextPage(word: nat, p: nat)
    ensures (word + 1) * p <= (word / 256 + 1) * (256 * p)
  {
    assert (word / 256 + 1) * (256 * p) == (word / 256 + 1) * 256 * p;
    Monotone((word / 256 + 1) * 256, word + 1, p);
  }

  /**
    Encoding and decoding again gives the greatest target the format can express that is not
    above the number. It keeps the sign of anything but zero, never overflows, and encodes to
    the same word.
  */
  lemma CompactRoundTrip(v: nat, negative: bool)
    requires v < MODULUS
    ensures var c := GetCompact(v, negative); var d := SetCompact(c);
      && d == Target(Rounded(v), negative && v > 0, false)
      && Rounded(v) <= v
      && (forall w: nat | !SetCompact(w).overflow && SetCompact(w).value <= v :: SetCompact(w).value <= d.value)
      && GetCompact(d.value, negative) == c
  {
    hide Bytes, Bits, ByteSize, Leading, Rounded, GetCompact, SetCompact, Exact, Kept;
    forall w: nat | !SetCompact(w).overflow && SetCompact(w).value <= v
      ensures SetCompact(w).value <= Rounded(v)
    {
      OverflowExact(w);
      if v > 0 { RoundedGreatest(v, w); }
    }
    if v == 0 {
      ZeroRoundTrip(v, negative);
    } else {
      RoundedExact(v, negative);
      RoundedDown(v);
      OverflowExact(GetCompact(v, negative));
      Flags(GetCompact(v, negative));
    }
  }

  lemma Flags(c: nat)
    ensures SetCompact(c).negative == (Kept(c) != 0 && Sign(c))
  {
  }

  lemma ZeroRoundTrip(v: nat, negative: bool)
    requires v == 0
    ensures GetCompact(v, negative) == v && SetCompact(v) == Target(v, false, false) && Rounded(v) == v
  {
    hide Bytes, Bits, ByteSize, Leading, Kept, Mantissa;
    ZeroLeading(v);
    ZeroKept(v);
    assert Size(v) == 0;
  }

  lemma ZeroLeading(v: nat)
    requires v == 0
    ensures ByteSize(v) == 0 && Leading(v) == 0
  {
    hide Bytes;
    assert ByteSize(v) == 0;
  }

  lemma ZeroKept(c: nat)
    requires c == 0
    ensures Kept(c) == 0
  {
    hide Bytes;
    assert Mantissa(c) == 0 && Size(c) == 0;
    ZeroOver(Bytes(3));
  }

  lemma ZeroOver(p: nat)
    requires p > 0
    ensures 0 / p == 0
  {
    Mod(0, 0, 0, p);
  }

  // ----- Work -----

  /** A decoded target leaves room for one more. */
  lemma TargetBelow(c: nat)
    ensures SetCompact(c).value < MODULUS - 1
  {
    hide Bytes;
    BytesOfModulus();
    if Size(c) <= 3 {
      KeptBelow(c);
    } else {
      TargetEven(Mantissa(c), Size(c));
    }
  }

  lemma TargetEven(word: nat, size: nat)
    requires size > 3
    ensures word * Bytes(size - 3) % MODULUS < MODULUS - 1
  {
    hide Bytes;
    BytesOfModulus();
    BytesAdd(1, size - 4);
    var half := 128 * (word * Bytes(size - 4));
    assert word * (256 * Bytes(size - 4)) == 2 * half;
    EvenBelow(half, MODULUS / 2);
  }

  lemma EvenBelow(half: nat, k: nat)
    requires k > 0
    ensures 2 * half % (2 * k) < 2 * k - 1
  {
    var q, r := half / k, half % k;
    assert half == q * k + r;
    Mod(2 * half, 2 * r, q, 2 * k);
  }

  /** The work of a block with this target, as it is computed without 2^256. */
  function BlockProof(c: nat): nat {
    TargetBelow(c);
    var t := SetCompact(c);
    if t.negative || t.overflow || t.value == 0 then 0 else Over(MODULUS - 1 - t.value, t.value + 1) + 1
  }

  /** It is the number of hashes expected: 2^256 divided by the target plus one. */
  lemma BlockProofExact(c: nat)
    requires var t := SetCompact(c); !t.negative && !t.overflow && t.value != 0
    ensures BlockProof(c) == MODULUS / (SetCompact(c).value + 1)
  {
    hide SetCompact;
    TargetBelow(c);
    var t := SetCompact(c).value + 1;
    var n := MODULUS - t;
    Mod(MODULUS, n % t, n / t + 1, t);
  }

  // ----- The same on limbs -----

  method SetCompactIn(u: BaseUint, c: nat) returns (negative: bool, overflow: bool)
    requires u.Valid() && c < 0x1_0000_0000
    modifies u.pn
    ensures Target(u.V(), negative, overflow) == SetCompact(c)
  {
    hide Val, Weight, Pow2, Bytes;
    var size, word := c / 0x100_0000, c % 0x80_0000;
    ModulusIsWeight();
    if size <= 3 {
      BytesIsPow2(3 - size);
      KeptBelow(c);
      word := word / Pow2(8 * (3 - size));
      u.Assign(word);
    } else {
      BytesIsPow2(size - 3);
      u.Assign(word);
      u.ShiftLeft(8 * (size - 3));
    }
    negative := word != 0 && c / 0x80_0000 % 2 == 1;
    overflow := word != 0 && (size > 34 || (word > 0xff && size > 33) || (word > 0xffff && size > 32));
  }

  lemma BitsAre(v: nat, n: nat)
    requires n > 0 && Pow2(n - 1) <= v < Pow2(n)
    ensures Bits(v) == n
  {
    hide Pow2;
    BitsRight(v);
    if Bits(v) < n { Pow2Grows(Bits(v), n - 1); }
    if Bits(v) > n { Pow2Grows(n, Bits(v) - 1); }
  }

  /** The sign bit of the format is clear in the mantissa and the size fits into a byte. */
  method GetCompactOf(u: BaseUint, negative: bool) returns (c: nat)
    requires u.Valid()
    ensures c == GetCompact(u.V(), negative) < 0x1_0000_0000
  {
    hide Val, Weight, Pow2, Bytes, Bits, ByteSize, Leading;
    var size := CountBytes(u);
    LeadingSmall(u.V());
    var word := LeadingWord(u, size);
    if word / 0x80_0000 % 2 == 1 {
      word := word / 256;
      size := size + 1;
    }
    assert word < 0x80_0000;
    assert size < 256;
    c := word + size * 0x100_0000;
    if negative && word != 0 { c := c + 0x80_0000; }
  }

  method CountBytes(u: BaseUint) returns (size: nat)
    requires u.Valid()
    ensures size == ByteSize(u.V()) <= 32
  {
    hide Val, Weight, Pow2, Bytes, Bits;
    var bits := u.Bits();
    if bits == 0 { ZeroBits(u.V()); } else { BitsAre(u.V(), bits); }
    size := (bits + 7) / 8;
  }

  method LeadingWord(u: BaseUint, size: nat) returns (word: nat)
    requires u.Valid() && size == ByteSize(u.V())
    ensures word == Leading(u.V())
  {
    hide Val, Weight, Pow2, Bytes, Bits, ByteSize;
    LeadingSmall(u.V());
    if size <= 3 {
      var low := u.GetLow64();
      SmallLow(u.V());
      BytesIsPow2(3 - size);
      word := low * Pow2(8 * (3 - size));
    } else {
      var bn := new BaseUint.Copy(u);
      bn.ShiftRight(8 * (size - 3));
      BytesIsPow2(size - 3);
      word := bn.GetLow64();
    }
  }

  lemma ZeroBits(v: nat)
    requires v == 0
    ensures Bits(v) == 0
  {
  }

  lemma LeadingSmall(v: nat)
    ensures Leading(v) < 0x100_0000
  {
    hide Bytes, Bits, ByteSize;
    if v == 0 { ZeroLeading(v); } else { LeadingRight(v); }
  }

  lemma SmallLow(v: nat)
    requires ByteSize(v) <= 3
    ensures v < 0x100_0000
  {
    hide Bytes, ByteSize;
    ByteSizeRight(v);
    BytesGrow(ByteSize(v), 3);
    BytesOfModulus();
  }

  /** On a chain of signed blocks every block counts as one. */
  method GetBlockProof(signedBlocks: bool, c: nat) returns (r: BaseUint)
    requires c < 0x1_0000_0000
    ensures r.Valid() && fresh(r) && fresh(r.pn) && r.V() == if signedBlocks then 1 else BlockProof(c)
  {
    hide Val, Weight, SetCompact;
    if signedBlocks {
      r := new BaseUint(1);
      return;
    }
    var target := new BaseUint(0);
    var negative, overflow := SetCompactIn(target, c);
    var zero := target.EqualTo(0);
    if negative || overflow || zero {
      r := new BaseUint(0);
      return;
    }
    TargetBelow(c);
    r := ProofOf(target);
  }

  method ProofOf(target: BaseUint) returns (r: BaseUint)
    requires target.Valid() && 0 < target.V() < MODULUS - 1
    modifies target.pn
    ensures r.Valid() && fresh(r) && fresh(r.pn)
    ensures r.V() == (MODULUS - 1 - old(target.V())) / (old(target.V()) + 1) + 1
  {
    hide Val, Weight;
    ModulusIsWeight();
    ghost var t := target.V();
    r := target.Inverted();
    var one := new BaseUint(1);
    target.Add(one);
    Mod(t + 1, t + 1, 0, MODULUS);
    var ok := r.Div(target);
    assert ok;
    ghost var q := (MODULUS - 1 - t) / (t + 1);
    QuotientRoom(MODULUS - 1 - t, t + 1);
    r.Add(one);
    Mod(q + 1, q + 1, 0, MODULUS);
  }

  lemma QuotientRoom(n: nat, d: nat)
    requires d > 0 && n < MODULUS - 1
    ensures n / d + 1 < MODULUS
  {
    assert n / d <= n by { assert n / d * d <= n; Monotone(d, 1, n / d); }
  }
}
