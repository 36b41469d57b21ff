/** The loops of the codec, proved to compute what the module Bech32 defines. */
module Bech32Codec {
  import opened Wrappers
  import opened CheckSymbols
  import Spec = Bech32

  method PolyMod(code: Code, v: seq<Symbol>) returns (c: Poly)
    ensures c == Feed(code, Poly(1), v)
  {
    hide Moved, Top, Bit, Xor, Generator, OfSymbol;
    c := Poly(1);
    var i := 0;
    while i < |v|
      invariant i <= |v| && Feed(code, c, v[i..]) == Feed(code, Poly(1), v)
    {
      assert v[i..][0] == v[i] && v[i..][1..] == v[i + 1..];
      c := Absorb(code, c, v[i]);
      i := i + 1;
    }
  }

  /** One turn of the loop: the state moves up and each set bit of the leaving coefficient adds a generator. */
  method Absorb(code: Code, c: Poly, v: Symbol) returns (d: Poly)
    ensures d == Step(code, c, v)
  {
    hide Moved, Top, Bit, Xor, Generator, OfSymbol;
    var c0 := Top(code, c);
    d := Xor(Moved(code, c), OfSymbol(v));
    ghost var start := d;
    if Bit(c0, 1) { d := Xor(d, Generator(code, 1)); }
    if Bit(c0, 2) { d := Xor(d, Generator(code, 2)); }
    if Bit(c0, 4) { d := Xor(d, Generator(code, 4)); }
    if Bit(c0, 8) { d := Xor(d, Generator(code, 8)); }
    if Bit(c0, 16) { d := Xor(d, Generator(code, 16)); }
    InTurn(code, start, c0);
  }

  function Added(code: Code, d: Poly, c0: Poly, mask: bv64): Poly {
    if Bit(c0, mask) then Xor(d, Generator(code, mask)) else d
  }

  lemma AddedIs(code: Code, d: Poly, c0: Poly, mask: bv64, rest: Poly)
    ensures Xor(Added(code, d, c0, mask), rest) == Xor(d, Xor(Part(code, c0, mask), rest))
  {
    hide Xor, Bit, Generator;
    XorAssociates(d, Part(code, c0, mask), rest);
    XorZero(d);
    XorZero(rest);
  }

  lemma InTurn(code: Code, d: Poly, c0: Poly)
    ensures Added(code, Added(code, Added(code, Added(code, Added(code, d, c0, 1), c0, 2), c0, 4), c0, 8), c0, 16) ==
            Xor(d, Reduce(code, c0))
  {
    hide Xor, Added, Part;
    var d1 := Added(code, d, c0, 1);
    var d2 := Added(code, d1, c0, 2);
    var d4 := Added(code, d2, c0, 4);
    var d8 := Added(code, d4, c0, 8);
    var d16 := Added(code, d8, c0, 16);
    XorZero(d16);
    XorZero(Part(code, c0, 16));
    AddedIs(code, d8, c0, 16, ZERO);
    var r8 := Part(code, c0, 16);
    AddedIs(code, d4, c0, 8, r8);
    var r4 := Xor(Part(code, c0, 8), r8);
    AddedIs(code, d2, c0, 4, r4);
    var r2 := Xor(Part(code, c0, 4), r4);
    AddedIs(code, d1, c0, 2, r2);
    AddedIs(code, d, c0, 1, Xor(Part(code, c0, 2), r2));
  }

  method ExpandHRP(hrp: string) returns (ret: seq<Symbol>)
    requires forall i | 0 <= i < |hrp| :: Spec.Byte(hrp[i])
    ensures ret == Spec.ExpandHRP(hrp)
  {
    var n := |hrp|;
    ret := seq(2 * n + 1, _ => 0);
    for i := 0 to n
      invariant |ret| == 2 * n + 1 && ret[n] == 0
      invariant forall j | 0 <= j < i :: ret[j] == hrp[j] as int / 32 && ret[j + n + 1] == hrp[j] as int % 32
    {
      assert Spec.Byte(hrp[i]);
      ret := ret[i := hrp[i] as int / 32][i + n + 1 := hrp[i] as int % 32];
    }
    forall j | n < j < 2 * n + 1 ensures ret[j] == Spec.ExpandHRP(hrp)[j] {
      assert ret[(j - n - 1) + n + 1] == hrp[j - n - 1] as int % 32;
    }
    ret := ret[n := 0];
  }

  method VerifyChecksum(code: Code, hrp: string, values: seq<Symbol>) returns (r: Option<Encoding>)
    requires forall i | 0 <= i < |hrp| :: Spec.Byte(hrp[i])
    ensures r == Spec.VerifyChecksum(code, hrp, values)
  {
    var expanded := ExpandHRP(hrp);
    var check := PolyMod(code, expanded + values);
    if check == Constant(code, Plain) { return Some(Plain); }
    if check == Constant(code, Modified) { return Some(Modified); }
    return None;
  }

  /** The state shifted right by a number of symbols. */
  function Shifted(m: Poly, n: nat): Poly {
    if n == 0 then m else High(Shifted(m, n - 1))
  }

  lemma {:induction false} GroupAt(m: Poly, n: nat, i: nat)
    requires i < n
    ensures Groups(m, n)[i] == Low(Shifted(m, n - 1 - i))
    decreases n
  {
    hide High, Low;
    if i < n - 1 {
      GroupAt(High(m), n - 1, i);
      ShiftedInside(m, n - 2 - i);
    }
  }

  lemma {:induction false} ShiftedInside(m: Poly, n: nat)
    ensures Shifted(High(m), n) == Shifted(m, n + 1)
  {
    hide High;
    if n > 0 { ShiftedInside(m, n - 1); }
  }

  method CreateChecksum(code: Code, encoding: Encoding, hrp: string, values: seq<Symbol>) returns (ret: seq<Symbol>)
    requires forall i | 0 <= i < |hrp| :: Spec.Byte(hrp[i])
    ensures ret == Spec.CreateChecksum(code, encoding, hrp, values)
  {
    hide Feed, Groups, Xor, Constant, High, Low;
    var expanded := ExpandHRP(hrp);
    var enc := expanded + values;
    var n := Length(code);
    var state := PolyMod(code, enc + Zeros(n));
    FeedConcat(code, Poly(1), enc, Zeros(n));
    var mod := Xor(state, Constant(code, encoding));
    ret := seq(n, _ => 0);
    for i := 0 to n
      invariant |ret| == n
      invariant forall j | 0 <= j < i :: ret[j] == Groups(mod, n)[j]
    {
      GroupAt(mod, n, i);
      ret := ret[i := Low(Shifted(mod, n - 1 - i))];
    }
  }

  method Encode(code: Code, encoding: Encoding, hrp: string, values: seq<Symbol>) returns (ret: string)
    requires !Spec.HasUpper(hrp) && forall i | 0 <= i < |hrp| :: Spec.Byte(hrp[i])
    ensures ret == Spec.Encode(code, encoding, hrp, values)
  {
    hide Spec.CreateChecksum, Spec.Char, Spec.HasUpper;
    var checksum := CreateChecksum(code, encoding, hrp, values);
    var combined := values + checksum;
    ret := hrp + "1";
    for i := 0 to |combined|
      invariant ret == hrp + "1" + Spec.Chars(combined)[..i]
    {
      ret := ret + [Spec.Char(combined[i])];
    }
  }

  method Decode(code: Code, s: string) returns (r: Option<Spec.Decoded>)
    ensures r == Spec.Decode(code, s)
  {
    hide Spec.CharsetRev, Spec.LowerCase, Spec.VerifyChecksum, Spec.Values, Spec.HasLower, Spec.HasUpper;
    var fine := CheckCharacters(s);
    if !fine { return None; }
    var pos := Spec.RFind(s);
    if |s| > Spec.Limit(code) || pos == -1 || pos == 0 || pos + Length(code) + 1 > |s| { return None; }
    var values := ReadValues(s[pos + 1..]);
    if values.None? { return None; }
    var hrp := ToLower(s[..pos]);
    BytesOfLower(s[..pos]);
    var result := VerifyChecksum(code, hrp, values.value);
    if result.None? { return None; }
    return Some(Spec.Decoded(result.value, hrp, values.value[..|values.value| - Length(code)]));
  }

  lemma BytesOfLower(s: string)
    requires Spec.Printable(s)
    ensures forall i | 0 <= i < |s| :: Spec.Byte(Spec.Lower(s)[i])
  {
  }

  method ToLower(s: string) returns (r: string)
    ensures r == Spec.Lower(s)
  {
    hide Spec.LowerCase;
    r := "";
    for i := 0 to |s|
      invariant |r| == i && forall j | 0 <= j < i :: r[j] == Spec.LowerCase(s[j])
    {
      r := r + [Spec.LowerCase(s[i])];
    }
  }

  method CheckCharacters(s: string) returns (fine: bool)
    ensures fine == (Spec.Printable(s) && !(Spec.HasLower(s) && Spec.HasUpper(s)))
  {
    hide Spec.HasLower, Spec.HasUpper;
    var lower, upper := false, false;
    EmptyHasNoCase();
    for i := 0 to |s|
      invariant lower == Spec.HasLower(s[..i]) && upper == Spec.HasUpper(s[..i]) && Spec.Printable(s[..i])
    {
      assert s[..i + 1] == s[..i] + [s[i]];
      Snoc(s[..i], s[i]);
      if 'a' <= s[i] <= 'z' {
        lower := true;
      } else if 'A' <= s[i] <= 'Z' {
        upper := true;
      } else if (s[i] as int) < 33 || s[i] as int > 126 {
        assert !Spec.IsPrintable(s[i]);
        return false;
      }
    }
    assert s[..|s|] == s;
    fine := !(lower && upper);
  }

  lemma EmptyHasNoCase()
    ensures !Spec.HasLower([]) && !Spec.HasUpper([])
  {
  }

  lemma Snoc(s: string, c: char)
    ensures Spec.HasLower(s + [c]) == (Spec.HasLower(s) || Spec.IsLower(c))
    ensures Spec.HasUpper(s + [c]) == (Spec.HasUpper(s) || Spec.IsUpper(c))
    ensures Spec.Printable(s + [c]) == (Spec.Printable(s) && Spec.IsPrintable(c))
  {
    var t := s + [c];
    assert t[|s|] == c && forall i | 0 <= i < |s| :: t[i] == s[i];
  }

  method ReadValues(s: string) returns (values: Option<seq<Symbol>>)
    requires forall i | 0 <= i < |s| :: (s[i] as int) < 128
    ensures values == Spec.Values(s) && (values.Some? ==> |values.value| == |s|)
  {
    hide Spec.CharsetRev;
    var read: seq<Symbol> := [];
    for i := 0 to |s|
      invariant |read| == i
      invariant forall j | 0 <= j < i :: 0 <= Spec.CharsetRev(s[j]) < 32 && read[j] == Spec.CharsetRev(s[j])
    {
      var rev := Spec.CharsetRev(s[i]);
      if rev == -1 { return None; }
      Spec.CharOfRev(s[i]);
      read := read + [rev];
    }
    assert Spec.Values(s).Some? && Spec.Values(s).value == read;
    return Some(read);
  }
}
