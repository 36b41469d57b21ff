/** Strings that the repository's tests list, decoded: they fix the generator, the constants and the alphabet. */
module Bech32Vectors {
  import opened Wrappers
  import opened CheckSymbols
  import opened Bech32

  /** The states one after the other as the symbols are fed. */
  ghost predicate Walks(code: Code, states: seq<bv64>, word: seq<Symbol>) {
    && |states| == |word| + 1
    && forall i | 0 <= i < |word| :: Step(code, Poly(states[i]), word[i]) == Poly(states[i + 1])
  }

  lemma {:induction false} WalkFeeds(code: Code, states: seq<bv64>, word: seq<Symbol>)
    requires Walks(code, states, word)
    ensures Feed(code, Poly(states[0]), word) == Poly(states[|word|])
    decreases |word|
  {
    hide Step;
    if word != [] { WalkFeeds(code, states[1..], word[1..]); }
  }

  /** A checksum on its own, for the human-readable part "a" and no data. */
  lemma Alone(code: Code, encoding: Encoding, w: seq<Symbol>, states: seq<bv64>)
    requires |w| == Length(code) && Walks(code, states, [3, 0, 1] + w)
    requires states[0] == 1 && Poly(states[|w| + 3]) == Constant(code, encoding)
    ensures Decode(code, "a1" + Chars(w)) == Some(Decoded(encoding, "a", []))
  {
    hide Feed, Constant, Chars, CharsetRev, CreateChecksum, Decode, Walks;
    WalkFeeds(code, states, [3, 0, 1] + w);
    assert ExpandHRP("a") == [3, 0, 1];
    assert [] + w == w && "a" + "1" == "a1";
    ConstantsDiffer(code);
    VerifiesIff(code, encoding, "a", [], w);
    EncodeDecode(code, encoding, "a", []);
  }

  const BECH_STATES: seq<bv64> := [
    0x1, 0x23, 0x460, 0x8c01, 0x11802a, 0x230055c, 0x3d6afc2b, 0x2f84386, 0x24622766, 0x1]

  lemma BechSteps()
    ensures Step(CheckSymbols.Bech32, Poly(0x1), 3) == Poly(0x23)
    ensures Step(CheckSymbols.Bech32, Poly(0x23), 0) == Poly(0x460)
    ensures Step(CheckSymbols.Bech32, Poly(0x460), 1) == Poly(0x8c01)
    ensures Step(CheckSymbols.Bech32, Poly(0x8c01), 10) == Poly(0x11802a)
    ensures Step(CheckSymbols.Bech32, Poly(0x11802a), 28) == Poly(0x230055c)
    ensures Step(CheckSymbols.Bech32, Poly(0x230055c), 25) == Poly(0x3d6afc2b)
    ensures Step(CheckSymbols.Bech32, Poly(0x3d6afc2b), 31) == Poly(0x2f84386)
    ensures Step(CheckSymbols.Bech32, Poly(0x2f84386), 20) == Poly(0x24622766)
    ensures Step(CheckSymbols.Bech32, Poly(0x24622766), 31) == Poly(0x1)
  {
  }

  lemma BechWalk()
    ensures Walks(CheckSymbols.Bech32, BECH_STATES, [3, 0, 1, 10, 28, 25, 31, 20, 31])
  {
    hide Step;
    BechSteps();
  }

  /** src/test/bech32_tests.cpp lists it among the valid ones. */
  lemma BechVector()
    ensures Decode(CheckSymbols.Bech32, "a12uel5l") == Some(Decoded(Plain, "a", []))
  {
    hide Step, Decode, Feed, CharsetRev, Walks;
    var w: seq<Symbol> := [10, 28, 25, 31, 20, 31];
    BechWalk();
    assert [3, 0, 1] + w == [3, 0, 1, 10, 28, 25, 31, 20, 31];
    assert Char(10) == '2' && Char(28) == 'u' && Char(25) == 'e' && Char(31) == 'l' && Char(20) == '5';
    assert "a1" + Chars(w) == "a12uel5l";
    Alone(CheckSymbols.Bech32, Plain, w, BECH_STATES);
  }

  const BECH_MODIFIED_STATES: seq<bv64> := [
    0x1, 0x23, 0x460, 0x8c01, 0x11803f, 0x23007e0, 0x3d6aabbb, 0x2f2b18a, 0x253c66e3, 0x2bc830a3]

  lemma BechModifiedSteps()
    ensures Step(CheckSymbols.Bech32, Poly(0x1), 3) == Poly(0x23)
    ensures Step(CheckSymbols.Bech32, Poly(0x23), 0) == Poly(0x460)
    ensures Step(CheckSymbols.Bech32, Poly(0x460), 1) == Poly(0x8c01)
    ensures Step(CheckSymbols.Bech32, Poly(0x8c01), 31) == Poly(0x11803f)
    ensures Step(CheckSymbols.Bech32, Poly(0x11803f), 0) == Poly(0x23007e0)
    ensures Step(CheckSymbols.Bech32, Poly(0x23007e0), 9) == Poly(0x3d6aabbb)
    ensures Step(CheckSymbols.Bech32, Poly(0x3d6aabbb), 19) == Poly(0x2f2b18a)
    ensures Step(CheckSymbols.Bech32, Poly(0x2f2b18a), 17) == Poly(0x253c66e3)
    ensures Step(CheckSymbols.Bech32, Poly(0x253c66e3), 29) == Poly(0x2bc830a3)
  {
  }

  lemma BechModifiedWalk()
    ensures Walks(CheckSymbols.Bech32, BECH_MODIFIED_STATES, [3, 0, 1, 31, 0, 9, 19, 17, 29])
  {
    hide Step;
    BechModifiedSteps();
  }

  /** The same for Bech32m. */
  lemma BechModifiedVector()
    ensures Decode(CheckSymbols.Bech32, "a1lqfn3a") == Some(Decoded(Modified, "a", []))
  {
    hide Step, Decode, Feed, CharsetRev, Walks;
    var w: seq<Symbol> := [31, 0, 9, 19, 17, 29];
    BechModifiedWalk();
    assert [3, 0, 1] + w == [3, 0, 1, 31, 0, 9, 19, 17, 29];
    assert Char(31) == 'l' && Char(0) == 'q' && Char(9) == 'f' && Char(19) == 'n' && Char(17) == '3' &&
      Char(29) == 'a';
    assert "a1" + Chars(w) == "a1lqfn3a";
    Alone(CheckSymbols.Bech32, Modified, w, BECH_MODIFIED_STATES);
  }

  const BLECH_STATES: seq<bv64> := [
    0x1, 0x23, 0x460, 0x8c01, 0x118031, 0x2300631, 0x4600c633, 0x8c018c662, 0x1180318cc49, 0x23006319892e,
      0x4600c633125d9, 0x8c018c6624bb24, 0x1fd6377609cbc10, 0xf8fb1a8ad9fcf94, 0x1811efa25f0426c, 0x1]

  lemma BlechSteps()
    ensures Step(CheckSymbols.Blech32, Poly(0x1), 3) == Poly(0x23)
    ensures Step(CheckSymbols.Blech32, Poly(0x23), 0) == Poly(0x460)
    ensures Step(CheckSymbols.Blech32, Poly(0x460), 1) == Poly(0x8c01)
    ensures Step(CheckSymbols.Blech32, Poly(0x8c01), 17) == Poly(0x118031)
    ensures Step(CheckSymbols.Blech32, Poly(0x118031), 17) == Poly(0x2300631)
    ensures Step(CheckSymbols.Blech32, Poly(0x2300631), 19) == Poly(0x4600c633)
    ensures Step(CheckSymbols.Blech32, Poly(0x4600c633), 2) == Poly(0x8c018c662)
    ensures Step(CheckSymbols.Blech32, Poly(0x8c018c662), 9) == Poly(0x1180318cc49)
    ensures Step(CheckSymbols.Blech32, Poly(0x1180318cc49), 14) == Poly(0x23006319892e)
    ensures Step(CheckSymbols.Blech32, Poly(0x23006319892e), 25) == Poly(0x4600c633125d9)
    ensures Step(CheckSymbols.Blech32, Poly(0x4600c633125d9), 4) == Poly(0x8c018c6624bb24)
    ensures Step(CheckSymbols.Blech32, Poly(0x8c018c6624bb24), 22) == Poly(0x1fd6377609cbc10)
    ensures Step(CheckSymbols.Blech32, Poly(0x1fd6377609cbc10), 30) == Poly(0xf8fb1a8ad9fcf94)
    ensures Step(CheckSymbols.Blech32, Poly(0xf8fb1a8ad9fcf94), 28) == Poly(0x1811efa25f0426c)
    ensures Step(CheckSymbols.Blech32, Poly(0x1811efa25f0426c), 11) == Poly(0x1)
  {
  }

  lemma BlechWalk()
    ensures Walks(CheckSymbols.Blech32, BLECH_STATES, [3, 0, 1, 17, 17, 19, 2, 9, 14, 25, 4, 22, 30, 28, 11])
  {
    hide Step;
    BlechSteps();
  }

  /** src/test/blech32_tests.cpp lists it among the valid ones. */
  lemma BlechVector()
    ensures Decode(CheckSymbols.Blech32, "a133nzfweyk7ut") == Some(Decoded(Plain, "a", []))
  {
    hide Step, Decode, Feed, CharsetRev, Walks;
    var w: seq<Symbol> := [17, 17, 19, 2, 9, 14, 25, 4, 22, 30, 28, 11];
    BlechWalk();
    assert [3, 0, 1] + w == [3, 0, 1, 17, 17, 19, 2, 9, 14, 25, 4, 22, 30, 28, 11];
    assert Char(17) == '3' && Char(19) == 'n' && Char(2) == 'z' && Char(9) == 'f' && Char(14) == 'w' &&
      Char(25) == 'e' && Char(4) == 'y' && Char(22) == 'k' && Char(30) == '7' && Char(28) == 'u' &&
      Char(11) == 't';
    assert "a1" + Chars(w) == "a133nzfweyk7ut";
    Alone(CheckSymbols.Blech32, Plain, w, BLECH_STATES);
  }

  const BLECH_MODIFIED_STATES: seq<bv64> := [
    0x1, 0x23, 0x460, 0x8c01, 0x118039, 0x2300724, 0x4600e49f, 0x8c01c93f5, 0x11803927eac, 0x2300724fd586,
      0x4600e49fab0c0, 0x8c01c93f561811, 0x1fd6bdc4ec8dab1, 0xf8ea4cd67131ba9, 0x1a3b243746ac5d1, 0x455972a3350f7a1]

  lemma BlechModifiedSteps()
    ensures Step(CheckSymbols.Blech32, Poly(0x1), 3) == Poly(0x23)
    ensures Step(CheckSymbols.Blech32, Poly(0x23), 0) == Poly(0x460)
    ensures Step(CheckSymbols.Blech32, Poly(0x460), 1) == Poly(0x8c01)
    ensures Step(CheckSymbols.Blech32, Poly(0x8c01), 25) == Poly(0x118039)
    ensures Step(CheckSymbols.Blech32, Poly(0x118039), 4) == Poly(0x2300724)
    ensures Step(CheckSymbols.Blech32, Poly(0x2300724), 31) == Poly(0x4600e49f)
    ensures Step(CheckSymbols.Blech32, Poly(0x4600e49f), 21) == Poly(0x8c01c93f5)
    ensures Step(CheckSymbols.Blech32, Poly(0x8c01c93f5), 12) == Poly(0x11803927eac)
    ensures Step(CheckSymbols.Blech32, Poly(0x11803927eac), 6) == Poly(0x2300724fd586)
    ensures Step(CheckSymbols.Blech32, Poly(0x2300724fd586), 0) == Poly(0x4600e49fab0c0)
    ensures Step(CheckSymbols.Blech32, Poly(0x4600e49fab0c0), 17) == Poly(0x8c01c93f561811)
    ensures Step(CheckSymbols.Blech32, Poly(0x8c01c93f561811), 23) == Poly(0x1fd6bdc4ec8dab1)
    ensures Step(CheckSymbols.Blech32, Poly(0x1fd6bdc4ec8dab1), 3) == Poly(0xf8ea4cd67131ba9)
    ensures Step(CheckSymbols.Blech32, Poly(0xf8ea4cd67131ba9), 1) == Poly(0x1a3b243746ac5d1)
    ensures Step(CheckSymbols.Blech32, Poly(0x1a3b243746ac5d1), 11) == Poly(0x455972a3350f7a1)
  {
  }

  lemma BlechModifiedWalk()
    ensures Walks(CheckSymbols.Blech32, BLECH_MODIFIED_STATES, [3, 0, 1, 25, 4, 31, 21, 12, 6, 0, 17, 23, 3, 1, 11])
  {
    hide Step;
    BlechModifiedSteps();
  }

  /** The same for Blech32m. */
  lemma BlechModifiedVector()
    ensures Decode(CheckSymbols.Blech32, "a1eyl4vxq3hrpt") == Some(Decoded(Modified, "a", []))
  {
    hide Step, Decode, Feed, CharsetRev, Walks;
    var w: seq<Symbol> := [25, 4, 31, 21, 12, 6, 0, 17, 23, 3, 1, 11];
    BlechModifiedWalk();
    assert [3, 0, 1] + w == [3, 0, 1, 25, 4, 31, 21, 12, 6, 0, 17, 23, 3, 1, 11];
    assert Char(25) == 'e' && Char(4) == 'y' && Char(31) == 'l' && Char(21) == '4' && Char(12) == 'v' &&
      Char(6) == 'x' && Char(0) == 'q' && Char(17) == '3' && Char(23) == 'h' && Char(3) == 'r' &&
      Char(1) == 'p' && Char(11) == 't';
    assert "a1" + Chars(w) == "a1eyl4vxq3hrpt";
    Alone(CheckSymbols.Blech32, Modified, w, BLECH_MODIFIED_STATES);
  }
}
