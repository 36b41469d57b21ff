/**
  The scalar bookkeeping of PSBT blinding.

  Scalars are integers below the order of the group. The three library calls are partial:
  they fail on keys that are zero or too large, and addition fails when the sum is zero.
*/
module BlindScalars {
  import opened Wrappers

  /** The order of the secp256k1 group. */
  const ORDER: int := 0xFFFFFFFFFFFFFFFFFFFFFFFFFFFFFFFEBAAEDCE6AF48A03BBFD25E8CD0364141

  predicate Canonical(x: nat) {
    x < ORDER
  }

  predicate ValidKey(x: nat) {
    0 < x < ORDER
  }

  ghost predicate Cong(a: int, b: int) {
    (a - b) % ORDER == 0
  }

  function SeckeyNegate(k: nat): Option<nat> {
    if ValidKey(k) then Some(ORDER - k) else None
  }

  function SeckeyTweakAdd(k: nat, tweak: nat): Option<nat> {
    if ValidKey(k) && Canonical(tweak) && (k + tweak) % ORDER != 0 then Some((k + tweak) % ORDER) else None
  }

  function SeckeyTweakMul(k: nat, tweak: nat): Option<nat> {
    if ValidKey(k) && ValidKey(tweak) then Some(k * tweak % ORDER) else None
  }

  function SubtractScalars(a: nat, b: nat): Option<nat> {
    if b == 0 then Some(a) else
    match SeckeyNegate(b)
    case None => None
    case Some(minus) => if a == 0 then Some(minus) else SeckeyTweakAdd(a, minus)
  }

  /** a + b for a key a, with the sum zero, on which the library call fails, as a special case. */
  function AddScalars(a: nat, b: nat): Option<nat> {
    match SeckeyNegate(b)
    case None => None
    case Some(minus) => if minus == a then Some(0) else SeckeyTweakAdd(a, b)
  }

  /** value * assetBlinder + valueBlinder. */
  function CalculateScalarOffset(value: int, assetBlinder: nat, valueBlinder: nat): Option<nat> {
    if assetBlinder == 0 || value <= 0 then Some(valueBlinder) else
    match SeckeyTweakMul(assetBlinder, value)
    case None => None
    case Some(product) => if valueBlinder == 0 then Some(product) else AddScalars(product, valueBlinder)
  }

  function ComputeAndAddToScalarOffset(a: nat, value: int, assetBlinder: nat, valueBlinder: nat): Option<nat> {
    if assetBlinder == 0 && valueBlinder == 0 then Some(a) else
    match CalculateScalarOffset(value, assetBlinder, valueBlinder)
    case None => None
    case Some(scalar) => if a == 0 then Some(scalar) else AddScalars(a, scalar)
  }

  /** What an input or output contributes to the balance. */
  function Offset(value: int, assetBlinder: nat, valueBlinder: nat): int {
    value * assetBlinder + valueBlinder
  }

  /** The order is prime, so a product of two keys is not zero. */
  ghost predicate NoZeroDivisors() {
    forall a, b | 0 < a < ORDER && 0 < b < ORDER :: a * b % ORDER != 0
  }

  /**
    Subtraction of canonical scalars is right where it succeeds, and it fails exactly when the
    result would be zero without both being zero: it never turns a scalar into zero.
  */
  lemma SubtractScalarsExact(a: nat, b: nat)
    requires Canonical(a) && Canonical(b)
    ensures SubtractScalars(a, b).None? <==> a == b != 0
    ensures SubtractScalars(a, b).Some? ==>
      var r := SubtractScalars(a, b).value;
      Canonical(r) && Cong(r, a - b) && (r == 0 <==> a == 0 && b == 0)
  {
  }

  lemma AddScalarsExact(a: nat, b: nat)
    requires ValidKey(a) && Canonical(b)
    ensures AddScalars(a, b).None? <==> b == 0
    ensures AddScalars(a, b).Some? ==> Canonical(AddScalars(a, b).value) && Cong(AddScalars(a, b).value, a + b)
  {
  }

  lemma CongPlus(a: int, b: int, c: int)
    requires Cong(a, b)
    ensures Cong(a + c, b + c) && Cong(c + a, c + b) && Cong(c - a, c - b)
  {
  }

  lemma CongTrans(a: int, b: int, c: int)
    requires Cong(a, b) && Cong(b, c)
    ensures Cong(a, c)
  {
  }

  /** The offset is right where it is computed, and always computed if the order is prime. */
  lemma CalculateScalarOffsetExact(value: int, assetBlinder: nat, valueBlinder: nat)
    requires 0 <= value < ORDER && Canonical(assetBlinder) && Canonical(valueBlinder)
    ensures var r := CalculateScalarOffset(value, assetBlinder, valueBlinder);
      && (r.Some? ==> Canonical(r.value) && Cong(r.value, Offset(value, assetBlinder, valueBlinder)))
      && (NoZeroDivisors() ==> r.Some?)
  {
    if assetBlinder == 0 || value == 0 {
      assert value * assetBlinder == 0;
    } else {
      var product := assetBlinder * value % ORDER;
      ProductReduced(value, assetBlinder);
      if product != 0 {
        hide Cong, NoZeroDivisors;
        if valueBlinder != 0 {
          AddScalarsExact(product, valueBlinder);
          CongPlus(product, value * assetBlinder, valueBlinder);
          CongTrans(AddScalars(product, valueBlinder).value, product + valueBlinder,
                    Offset(value, assetBlinder, valueBlinder));
        }
      }
    }
  }

  lemma ProductReduced(value: int, assetBlinder: nat)
    requires 0 < value < ORDER && ValidKey(assetBlinder)
    ensures 0 <= assetBlinder * value % ORDER < ORDER
    ensures Cong(assetBlinder * value % ORDER, value * assetBlinder)
    ensures NoZeroDivisors() ==> assetBlinder * value % ORDER != 0
  {
    var product := assetBlinder * value;
    assert product == value * assetBlinder;
    assert Cong(product % ORDER, product);
  }

  /**
    Adding an offset is right where it succeeds, and fails exactly when a zero offset made of
    blinders that are not both zero meets a sum that is not zero.
  */
  lemma ComputeAndAddExact(a: nat, value: int, assetBlinder: nat, valueBlinder: nat)
    requires Canonical(a) && 0 <= value < ORDER && Canonical(assetBlinder) && Canonical(valueBlinder)
    ensures var r := ComputeAndAddToScalarOffset(a, value, assetBlinder, valueBlinder);
      && (r.Some? ==> Canonical(r.value) && Cong(r.value, a + Offset(value, assetBlinder, valueBlinder)))
      && (NoZeroDivisors() ==>
          (r.None? <==>
           a != 0 && (assetBlinder != 0 || valueBlinder != 0) && Cong(Offset(value, assetBlinder, valueBlinder), 0)))
  {
    var offset := Offset(value, assetBlinder, valueBlinder);
    CalculateScalarOffsetExact(value, assetBlinder, valueBlinder);
    if assetBlinder == 0 && valueBlinder == 0 {
      assert value * assetBlinder == 0;
    } else {
      hide NoZeroDivisors, Offset;
      match CalculateScalarOffset(value, assetBlinder, valueBlinder)
      case None =>
      case Some(scalar) =>
        ZeroOnlyIfZero(scalar, offset);
        if a != 0 {
          AddScalarsExact(a, scalar);
          CongPlus(scalar, offset, a);
          if scalar != 0 { CongTrans(AddScalars(a, scalar).value, a + scalar, a + offset); }
        }
    }
  }

  lemma ZeroOnlyIfZero(x: nat, y: int)
    requires Canonical(x) && Cong(x, y)
    ensures Cong(y, 0) <==> x == 0
  {
  }
}
