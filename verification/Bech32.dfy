/**
  Bech32, Bech32m, Blech32 and Blech32m strings.

  The two source files differ only in their constants, so one model takes the code as a
  parameter. Characters stand for bytes.
*/
module Bech32 {
  import opened Wrappers
  import opened CheckSymbols
  import CheckDistance

  datatype Decoded = Decoded(encoding: Encoding, hrp: string, data: seq<Symbol>)

  const CHARSET := "qpzry9x8gf2tvdw0s3jn54khce6mua7l"

  const DIGITS_REV: seq<int> := [15, -1, 10, 17, 21, 20, 26, 30, 7, 5, -1, -1, -1, -1, -1, -1]

  const LETTERS_REV: seq<int> := [
    -1, 29, -1, 24, 13, 25, 9, 8, 23, -1, 18, 22, 31, 27, 19, -1,
    1, 0, 3, 16, 11, 28, 12, 14, 6, 4, 2, -1, -1, -1, -1, -1]

  /** The reverse table: three rows without entries, the digits, and the letters in either case. */
  function CharsetRev(c: char): int
    requires (c as int) < 128
  {
    var i := c as int;
    if i < 48 then -1 else if i < 64 then DIGITS_REV[i - 48] else LETTERS_REV[i % 32]
  }

  function Char(v: Symbol): char {
    CHARSET[v]
  }

  function LowerCase(c: char): char {
    if 'A' <= c <= 'Z' then (c as int + 32) as char else c
  }

  lemma RevOfCharA(v: Symbol)
    requires 0 <= v < 8
    ensures var c := Char(v); 33 <= c as int <= 126 && c != '1' && CharsetRev(c) == v && LowerCase(c) == c
  {
    assert CHARSET[0] == 'q'; assert CHARSET[1] == 'p'; assert CHARSET[2] == 'z'; assert CHARSET[3] == 'r';
    assert CHARSET[4] == 'y'; assert CHARSET[5] == '9'; assert CHARSET[6] == 'x'; assert CHARSET[7] == '8';
  }

  lemma RevOfCharB(v: Symbol)
    requires 8 <= v < 16
    ensures var c := Char(v); 33 <= c as int <= 126 && c != '1' && CharsetRev(c) == v && LowerCase(c) == c
  {
    assert CHARSET[8] == 'g'; assert CHARSET[9] == 'f'; assert CHARSET[10] == '2'; assert CHARSET[11] == 't';
    assert CHARSET[12] == 'v'; assert CHARSET[13] == 'd'; assert CHARSET[14] == 'w'; assert CHARSET[15] == '0';
  }

  lemma RevOfCharC(v: Symbol)
    requires 16 <= v < 24
    ensures var c := Char(v); 33 <= c as int <= 126 && c != '1' && CharsetRev(c) == v && LowerCase(c) == c
  {
    assert CHARSET[16] == 's'; assert CHARSET[17] == '3'; assert CHARSET[18] == 'j'; assert CHARSET[19] == 'n';
    assert CHARSET[20] == '5'; assert CHARSET[21] == '4'; assert CHARSET[22] == 'k'; assert CHARSET[23] == 'h';
  }

  lemma RevOfCharD(v: Symbol)
    requires 24 <= v < 32
    ensures var c := Char(v); 33 <= c as int <= 126 && c != '1' && CharsetRev(c) == v && LowerCase(c) == c
  {
    assert CHARSET[24] == 'c'; assert CHARSET[25] == 'e'; assert CHARSET[26] == '6'; assert CHARSET[27] == 'm';
    assert CHARSET[28] == 'u'; assert CHARSET[29] == 'a'; assert CHARSET[30] == '7'; assert CHARSET[31] == 'l';
  }

  /** Every symbol has a character of its own, which is not the separator nor an upper-case letter. */
  lemma RevOfChar(v: Symbol)
    ensures var c := Char(v); 33 <= c as int <= 126 && c != '1' && CharsetRev(c) == v && LowerCase(c) == c
  {
    hide CharsetRev, Char, LowerCase;
    if v < 8 {
      RevOfCharA(v);
    } else if v < 16 {
      RevOfCharB(v);
    } else if v < 24 {
      RevOfCharC(v);
    } else {
      RevOfCharD(v);
    }
  }

  lemma DigitOfRev(c: char)
    requires (c as int) < 64 && CharsetRev(c) != -1
    ensures 0 <= CharsetRev(c) < 32 && Char(CharsetRev(c)) == LowerCase(c)
  {
    assert CHARSET[5] == '9'; assert CHARSET[7] == '8'; assert CHARSET[10] == '2'; assert CHARSET[15] == '0';
    assert CHARSET[17] == '3'; assert CHARSET[20] == '5'; assert CHARSET[21] == '4'; assert CHARSET[26] == '6';
    assert CHARSET[30] == '7';
  }

  lemma EarlyLetterOfRev(c: char)
    requires 64 <= (c as int) < 128 && CharsetRev(c) != -1 && c as int % 32 < 16
    ensures 0 <= CharsetRev(c) < 32 && Char(CharsetRev(c)) == LowerCase(c)
  {
    assert CHARSET[8] == 'g'; assert CHARSET[9] == 'f'; assert CHARSET[13] == 'd'; assert CHARSET[18] == 'j';
    assert CHARSET[19] == 'n'; assert CHARSET[22] == 'k'; assert CHARSET[23] == 'h'; assert CHARSET[24] == 'c';
    assert CHARSET[25] == 'e'; assert CHARSET[27] == 'm'; assert CHARSET[29] == 'a'; assert CHARSET[31] == 'l';
  }

  lemma LateLetterOfRev(c: char)
    requires 64 <= (c as int) < 128 && CharsetRev(c) != -1 && c as int % 32 >= 16
    ensures 0 <= CharsetRev(c) < 32 && Char(CharsetRev(c)) == LowerCase(c)
  {
    assert CHARSET[0] == 'q'; assert CHARSET[1] == 'p'; assert CHARSET[2] == 'z'; assert CHARSET[3] == 'r';
    assert CHARSET[4] == 'y'; assert CHARSET[6] == 'x'; assert CHARSET[11] == 't'; assert CHARSET[12] == 'v';
    assert CHARSET[14] == 'w'; assert CHARSET[16] == 's'; assert CHARSET[28] == 'u';
  }

  /** A character in the table is the symbol's character in one of the two cases. */
  lemma CharOfRev(c: char)
    requires (c as int) < 128 && CharsetRev(c) != -1
    ensures 0 <= CharsetRev(c) < 32 && Char(CharsetRev(c)) == LowerCase(c)
  {
    hide CharsetRev, Char, LowerCase;
    if (c as int) < 64 {
      DigitOfRev(c);
    } else if c as int % 32 < 16 {
      EarlyLetterOfRev(c);
    } else {
      LateLetterOfRev(c);
    }
  }

  // ----- The checksum over a word -----

  predicate Byte(c: char) {
    (c as int) < 256
  }

  function ExpandHRP(hrp: string): (w: seq<Symbol>)
    requires forall i | 0 <= i < |hrp| :: Byte(hrp[i])
    ensures |w| == 2 * |hrp| + 1
  {
    seq<Symbol>(|hrp|, i requires 0 <= i < |hrp| && Byte(hrp[i]) => hrp[i] as int / 32) + [0] +
    seq<Symbol>(|hrp|, i requires 0 <= i < |hrp| => hrp[i] as int % 32)
  }

  /** The state after the human-readable part and the values. */
  function PolyModOf(code: Code, hrp: string, values: seq<Symbol>): Poly
    requires forall i | 0 <= i < |hrp| :: Byte(hrp[i])
  {
    Feed(code, Poly(1), ExpandHRP(hrp) + values)
  }

  function VerifyChecksum(code: Code, hrp: string, values: seq<Symbol>): Option<Encoding>
    requires forall i | 0 <= i < |hrp| :: Byte(hrp[i])
  {
    var check := PolyModOf(code, hrp, values);
    if check == Constant(code, Plain) then Some(Plain)
    else if check == Constant(code, Modified) then Some(Modified)
    else None
  }

  function CreateChecksum(code: Code, encoding: Encoding, hrp: string, values: seq<Symbol>): (w: seq<Symbol>)
    requires forall i | 0 <= i < |hrp| :: Byte(hrp[i])
    ensures |w| == Length(code)
  {
    Checksum(code, PolyModOf(code, hrp, values), Constant(code, encoding))
  }

  lemma ConstantsDiffer(code: Code)
    ensures Constant(code, Plain) != Constant(code, Modified)
  {
  }

  /** The values pass for an encoding exactly when they end in its checksum. */
  lemma VerifiesIff(code: Code, encoding: Encoding, hrp: string, values: seq<Symbol>, w: seq<Symbol>)
    requires (forall i | 0 <= i < |hrp| :: Byte(hrp[i])) && |w| == Length(code)
    ensures VerifyChecksum(code, hrp, values + w) == Some(encoding) <==>
      w == CreateChecksum(code, encoding, hrp, values)
  {
    hide Feed, Constant, Checksum, Fits;
    var u := ExpandHRP(hrp) + values;
    assert ExpandHRP(hrp) + (values + w) == u + w;
    FeedConcat(code, Poly(1), u, w);
    ConstantFits(code, encoding);
    FeedFits(code, Poly(1), u);
    ChecksumCorrect(code, Feed(code, Poly(1), u), Constant(code, encoding), w);
    ConstantsDiffer(code);
  }

  // ----- Strings -----

  predicate IsLower(c: char) {
    'a' <= c <= 'z'
  }

  predicate IsUpper(c: char) {
    'A' <= c <= 'Z'
  }

  predicate IsPrintable(c: char) {
    33 <= c as int <= 126
  }

  predicate Printable(s: string) {
    forall i | 0 <= i < |s| :: IsPrintable(s[i])
  }

  predicate HasLower(s: string) {
    exists i | 0 <= i < |s| :: IsLower(s[i])
  }

  predicate HasUpper(s: string) {
    exists i | 0 <= i < |s| :: IsUpper(s[i])
  }

  function Lower(s: string): string {
    seq(|s|, i requires 0 <= i < |s| => LowerCase(s[i]))
  }

  /** The last separator, or -1. */
  function RFind(s: string): (p: int)
    ensures -1 <= p < |s|
    ensures p >= 0 ==> s[p] == '1'
    ensures forall i | p < i < |s| :: s[i] != '1'
  {
    if s == [] then -1 else if s[|s| - 1] == '1' then |s| - 1 else RFind(s[..|s| - 1])
  }

  function Chars(w: seq<Symbol>): string {
    seq(|w|, i requires 0 <= i < |w| => Char(w[i]))
  }

  /** The symbols of the characters, if all have one. */
  function Values(s: string): Option<seq<Symbol>>
    requires forall i | 0 <= i < |s| :: (s[i] as int) < 128
  {
    if forall i | 0 <= i < |s| :: 0 <= CharsetRev(s[i]) < 32
    then Some(seq(|s|, i requires 0 <= i < |s| && 0 <= CharsetRev(s[i]) < 32 => CharsetRev(s[i])))
    else None
  }

  function Limit(code: Code): nat {
    if code.Bech32? then 90 else 1000
  }

  function Encode(code: Code, encoding: Encoding, hrp: string, values: seq<Symbol>): string
    requires !HasUpper(hrp) && forall i | 0 <= i < |hrp| :: Byte(hrp[i])
  {
    hrp + "1" + Chars(values + CreateChecksum(code, encoding, hrp, values))
  }

  function Decode(code: Code, s: string): Option<Decoded> {
    if !Printable(s) || (HasLower(s) && HasUpper(s)) then None else
    var pos := RFind(s);
    if |s| > Limit(code) || pos == -1 || pos == 0 || pos + Length(code) + 1 > |s| then None else
    match Values(s[pos + 1..])
    case None => None
    case Some(values) =>
      var hrp := Lower(s[..pos]);
      match VerifyChecksum(code, hrp, values)
      case None => None
      case Some(encoding) => Some(Decoded(encoding, hrp, values[..|values| - Length(code)]))
  }

  lemma ValuesOfChars(w: seq<Symbol>)
    ensures Printable(Chars(w)) && Values(Chars(w)) == Some(w)
    ensures forall i | 0 <= i < |w| :: Chars(w)[i] != '1' && !IsUpper(Chars(w)[i])
  {
    hide CharsetRev, Char;
    forall i | 0 <= i < |w|
      ensures var c := Chars(w)[i]; IsPrintable(c) && c != '1' && !IsUpper(c) && CharsetRev(c) == w[i]
    {
      RevOfChar(w[i]);
    }
    assert Values(Chars(w)).value == w;
  }

  /** Without upper-case letters, lowering changes nothing. */
  lemma LowerAlready(s: string)
    requires !HasUpper(s)
    ensures Lower(s) == s
  {
    forall i | 0 <= i < |s| ensures LowerCase(s[i]) == s[i] {
      assert !IsUpper(s[i]);
    }
  }

  /**
    What is encoded decodes to itself exactly when its human-readable part is not empty and
    printable and the string stays within the limit; otherwise nothing decodes.
  */
  lemma EncodeDecode(code: Code, encoding: Encoding, hrp: string, values: seq<Symbol>)
    requires !HasUpper(hrp) && forall i | 0 <= i < |hrp| :: Byte(hrp[i])
    ensures Decode(code, Encode(code, encoding, hrp, values)) ==
      if hrp != "" && Printable(hrp) && |hrp| + 1 + |values| + Length(code) <= Limit(code)
      then Some(Decoded(encoding, hrp, values)) else None
  {
    hide CharsetRev, Char, CreateChecksum, VerifyChecksum, LowerCase, Values;
    var w := values + CreateChecksum(code, encoding, hrp, values);
    var s := Encode(code, encoding, hrp, values);
    ValuesOfChars(w);
    assert s[|hrp|] == '1' && s[|hrp| + 1..] == Chars(w) && s[..|hrp|] == hrp;
    assert forall i | |hrp| < i < |s| :: s[i] == Chars(w)[i - |hrp| - 1];
    assert RFind(s) == |hrp|;
    if Printable(s) {
      assert forall i | 0 <= i < |hrp| :: hrp[i] == s[i];
    }
    assert forall i | 0 <= i < |s| :: !IsUpper(s[i]);
    LowerAlready(hrp);
    VerifiesIff(code, encoding, hrp, values, CreateChecksum(code, encoding, hrp, values));
    assert w[..|w| - Length(code)] == values;
  }

  /** The same with the limits spelled out: 90 characters or 1000, of which 33 to 126 are printable. */
  lemma EncodeDecodeLimits(code: Code, encoding: Encoding, hrp: string, values: seq<Symbol>)
    requires !HasUpper(hrp) && forall i | 0 <= i < |hrp| :: Byte(hrp[i])
    ensures Decode(code, Encode(code, encoding, hrp, values)) ==
      if && 0 < |hrp| && (forall i | 0 <= i < |hrp| :: 33 <= hrp[i] as int <= 126)
         && (if code.Bech32? then |hrp| + |values| + 7 <= 90 else |hrp| + |values| + 13 <= 1000)
      then Some(Decoded(encoding, hrp, values)) else None
  {
    hide Decode, Encode;
    EncodeDecode(code, encoding, hrp, values);
  }

  lemma HrpChar(c: char)
    requires IsPrintable(c)
    ensures IsPrintable(LowerCase(c)) && !IsUpper(LowerCase(c)) && (LowerCase(c) == '1' <==> c == '1')
  {
  }

  lemma DecodedParts(code: Code, s: string)
    requires Decode(code, s).Some?
    ensures var pos, d := RFind(s), Decode(code, s).value;
      && pos > 0 && Printable(s) && pos + Length(code) + 1 <= |s| <= Limit(code)
      && d.hrp == Lower(s[..pos]) && !HasUpper(d.hrp) && (forall i | 0 <= i < |d.hrp| :: Byte(d.hrp[i]))
      && Values(s[pos + 1..]).Some?
      && VerifyChecksum(code, d.hrp, Values(s[pos + 1..]).value) == Some(d.encoding)
      && d.data == Values(s[pos + 1..]).value[..|s| - pos - 1 - Length(code)]
  {
    hide CharsetRev, Char, VerifyChecksum, LowerCase;
    var pos := RFind(s);
    forall i | 0 <= i < pos ensures IsPrintable(LowerCase(s[i])) && !IsUpper(LowerCase(s[i])) {
      HrpChar(s[i]);
    }
  }

  /** What decodes is, in lower case, what its parts encode to. */
  lemma DecodeEncode(code: Code, s: string)
    requires Decode(code, s).Some?
    ensures var d := Decode(code, s).value;
      && !HasUpper(d.hrp) && (forall i | 0 <= i < |d.hrp| :: Byte(d.hrp[i]))
      && Encode(code, d.encoding, d.hrp, d.data) == Lower(s)
  {
    hide CharsetRev, Char, VerifyChecksum, LowerCase, CreateChecksum, Decode;
    DecodedParts(code, s);
    var pos, d := RFind(s), Decode(code, s).value;
    var values := Values(s[pos + 1..]).value;
    var w := values[|values| - Length(code)..];
    assert values == d.data + w;
    VerifiesIff(code, d.encoding, d.hrp, d.data, w);
    HrpChar('1');
    forall i | 0 <= i < |values| ensures Char(values[i]) == LowerCase(s[pos + 1 + i]) {
      assert s[pos + 1..][i] == s[pos + 1 + i];
      CharOfRev(s[pos + 1 + i]);
    }
    assert Encode(code, d.encoding, d.hrp, d.data) == Lower(s);
  }

  /** Nothing in mixed case decodes; otherwise case makes no difference. */
  lemma DecodeLower(code: Code, s: string)
    ensures if HasLower(s) && HasUpper(s) then Decode(code, s).None? else Decode(code, Lower(s)) == Decode(code, s)
  {
    hide CharsetRev, Char, VerifyChecksum, LowerCase, Values, HasUpper, HasLower;
    LowerParts(s);
    if Printable(s) && RFind(s) > 0 {
      LowerHalves(s, RFind(s));
    }
  }

  lemma LowerHalves(s: string, pos: nat)
    requires Printable(s) && pos < |s|
    ensures Lower(Lower(s)[..pos]) == Lower(s[..pos])
    ensures forall i | 0 <= i < |s| :: (Lower(s)[i] as int) < 128
    ensures Values(Lower(s)[pos + 1..]) == Values(s[pos + 1..])
  {
    hide CharsetRev, LowerCase, Values;
    var t := Lower(s);
    LowerParts(s);
    assert t[pos + 1..] == Lower(s[pos + 1..]);
    LowerValues(s[pos + 1..]);
    assert t[..pos] == Lower(s[..pos]);
    LowerParts(s[..pos]);
    LowerAlready(t[..pos]);
  }

  lemma LowerOf(c: char)
    ensures (IsPrintable(LowerCase(c)) <==> IsPrintable(c)) && !IsUpper(LowerCase(c))
    ensures LowerCase(c) == '1' <==> c == '1'
    ensures (c as int) < 128 ==> (LowerCase(c) as int) < 128 && CharsetRev(LowerCase(c)) == CharsetRev(c)
  {
  }

  lemma LowerParts(s: string)
    ensures (Printable(Lower(s)) <==> Printable(s)) && !HasUpper(Lower(s)) && RFind(Lower(s)) == RFind(s)
  {
    hide LowerCase, CharsetRev;
    var t := Lower(s);
    forall i | 0 <= i < |s|
      ensures (IsPrintable(t[i]) <==> IsPrintable(s[i])) && !IsUpper(t[i]) && (t[i] == '1' <==> s[i] == '1')
    {
      LowerOf(s[i]);
    }
    assert forall i | 0 <= i < |s| :: IsPrintable(t[i]) <==> IsPrintable(s[i]);
  }

  lemma LowerValues(s: string)
    requires forall i | 0 <= i < |s| :: (s[i] as int) < 128
    ensures (forall i | 0 <= i < |s| :: (Lower(s)[i] as int) < 128) && Values(Lower(s)) == Values(s)
  {
    hide LowerCase, CharsetRev;
    var t := Lower(s);
    forall i | 0 <= i < |s|
      ensures (t[i] as int) < 128 && CharsetRev(t[i]) == CharsetRev(s[i])
    {
      LowerOf(s[i]);
    }
    if Values(s).Some? { assert Values(t).value == Values(s).value; }
  }

  /**
    Two strings with the same human-readable part that both decode for the same encoding and
    differ only within as many neighbouring data characters as the checksum has are equal but
    for case. So one wrong character is never missed, nor is any shorter burst.
  */
  lemma NoBurstMissed(code: Code, s: string, t: string, from: nat, to: nat)
    requires Decode(code, s).Some? && Decode(code, t).Some?
    requires Decode(code, s).value.encoding == Decode(code, t).value.encoding
    requires |s| == |t| && RFind(s) == RFind(t) < from <= to <= |s| && to - from <= Length(code)
    requires forall i | 0 <= i < from || to <= i < |s| :: LowerCase(s[i]) == LowerCase(t[i])
    ensures Lower(s) == Lower(t)
  {
    hide CharsetRev, Char, VerifyChecksum, LowerCase, CreateChecksum, Decode, Encode, Values, HasUpper;
    DecodedParts(code, s);
    DecodedParts(code, t);
    var pos, d, e := RFind(s), Decode(code, s).value, Decode(code, t).value;
    SameHead(s, t, pos);
    SameValues(s[pos + 1..], t[pos + 1..], from - pos - 1, to - pos - 1);
    var x, y := Values(s[pos + 1..]).value, Values(t[pos + 1..]).value;
    SameWords(code, d.encoding, d.hrp, x, y, from - pos - 1, to - pos - 1);
    DecodeEncode(code, s);
    DecodeEncode(code, t);
  }

  lemma SameHead(s: string, t: string, pos: nat)
    requires pos <= |s| && pos <= |t| && forall i | 0 <= i < pos :: LowerCase(s[i]) == LowerCase(t[i])
    ensures Lower(s[..pos]) == Lower(t[..pos])
  {
    hide LowerCase;
  }

  lemma RevOfLower(c: char, d: char)
    requires (c as int) < 128 && (d as int) < 128 && CharsetRev(c) != -1 && CharsetRev(d) != -1
    requires LowerCase(c) == LowerCase(d)
    ensures CharsetRev(c) == CharsetRev(d)
  {
    hide Char, CharsetRev, LowerCase;
    CharOfRev(c);
    CharOfRev(d);
    RevOfChar(CharsetRev(c));
    RevOfChar(CharsetRev(d));
  }

  lemma SameValues(s: string, t: string, from: nat, to: nat)
    requires |s| == |t| && from <= to <= |s| && (forall i | 0 <= i < |s| :: (s[i] as int) < 128 && (t[i] as int) < 128)
    requires forall i | 0 <= i < from || to <= i < |s| :: LowerCase(s[i]) == LowerCase(t[i])
    requires Values(s).Some? && Values(t).Some?
    ensures var x, y := Values(s).value, Values(t).value;
      |x| == |y| == |s| && forall i | 0 <= i < from || to <= i < |s| :: x[i] == y[i]
  {
    hide CharsetRev, LowerCase;
    forall i | 0 <= i < from || to <= i < |s| ensures Values(s).value[i] == Values(t).value[i] {
      RevOfLower(s[i], t[i]);
    }
  }

  lemma Reassembled(x: seq<Symbol>, from: nat, to: nat)
    requires from <= to <= |x|
    ensures x == x[..from] + x[from..to] + x[to..]
  {
  }

  lemma SameWords(code: Code, encoding: Encoding, hrp: string, x: seq<Symbol>, y: seq<Symbol>, from: nat, to: nat)
    requires forall i | 0 <= i < |hrp| :: Byte(hrp[i])
    requires |x| == |y| && from <= to <= |x| && to - from <= Length(code)
    requires forall i | 0 <= i < from || to <= i < |x| :: x[i] == y[i]
    requires VerifyChecksum(code, hrp, x) == Some(encoding) && VerifyChecksum(code, hrp, y) == Some(encoding)
    ensures x == y
  {
    hide Feed, Fits, Constant;
    var p, q := ExpandHRP(hrp) + x[..from], x[to..];
    assert q == y[to..] && x[..from] == y[..from];
    assert ExpandHRP(hrp) + x == p + (x[from..to] + q);
    assert ExpandHRP(hrp) + y == p + (y[from..to] + q);
    FeedConcat(code, Poly(1), p, x[from..to] + q);
    FeedConcat(code, Poly(1), p, y[from..to] + q);
    ConstantFits(code, encoding);
    FeedFits(code, Poly(1), p);
    BurstDetected(code, Feed(code, Poly(1), p), x[from..to], y[from..to], q);
    Reassembled(x, from, to);
    Reassembled(y, from, to);
  }

  /**
    Two strings with the same human-readable part that both decode for the same encoding and
    differ in no more than three data characters, wherever they are, are equal but for case.
  */
  lemma NoTripleMissed(code: Code, s: string, t: string, i: nat, j: nat, k: nat)
    requires Decode(code, s).Some? && Decode(code, t).Some?
    requires Decode(code, s).value.encoding == Decode(code, t).value.encoding
    requires |s| == |t| && RFind(s) == RFind(t) < i < j < k < |s|
    requires forall h | 0 <= h < |s| && h != i && h != j && h != k :: LowerCase(s[h]) == LowerCase(t[h])
    ensures Lower(s) == Lower(t)
  {
    hide CharsetRev, Char, VerifyChecksum, LowerCase, CreateChecksum, Decode, Encode, Values, HasUpper, Lower,
         Printable;
    DecodedParts(code, s);
    DecodedParts(code, t);
    var pos, d, e := RFind(s), Decode(code, s).value, Decode(code, t).value;
    SameHead(s, t, pos);
    TripleValues(code, d.encoding, d.hrp, s, t, pos + 1, i, j, k);
    DecodeEncode(code, s);
    DecodeEncode(code, t);
  }

  lemma TripleValues(
    code: Code, encoding: Encoding, hrp: string, s: string, t: string, from: nat, i: nat, j: nat, k: nat)
    requires forall h | 0 <= h < |hrp| :: Byte(hrp[h])
    requires |s| == |t| <= 1000 && 0 < from <= i < j < k < |s| && Printable(s) && Printable(t)
    requires forall h | 0 <= h < |s| && h != i && h != j && h != k :: LowerCase(s[h]) == LowerCase(t[h])
    requires Values(s[from..]).Some? && Values(t[from..]).Some?
    requires VerifyChecksum(code, hrp, Values(s[from..]).value) == Some(encoding)
    requires VerifyChecksum(code, hrp, Values(t[from..]).value) == Some(encoding)
    ensures Values(s[from..]).value == Values(t[from..]).value
  {
    hide Values, LowerCase, VerifyChecksum;
    TripleTails(s, t, from, i, j, k);
    SameTriples(code, encoding, hrp, Values(s[from..]).value, Values(t[from..]).value, i - from, j - from, k - from);
  }

  lemma TripleTails(s: string, t: string, from: nat, i: nat, j: nat, k: nat)
    requires |s| == |t| && from <= i < j < k < |s| && Printable(s) && Printable(t)
    requires forall h | 0 <= h < |s| && h != i && h != j && h != k :: LowerCase(s[h]) == LowerCase(t[h])
    requires Values(s[from..]).Some? && Values(t[from..]).Some?
    ensures var x, y := Values(s[from..]).value, Values(t[from..]).value;
      && |x| == |y| == |s| - from
      && forall h | 0 <= h < |x| && h !in {i - from, j - from, k - from} :: x[h] == y[h]
  {
    hide Values, LowerCase;
    TailsAgree(s, t, from, i, j, k);
    SameValuesBut(s[from..], t[from..], {i - from, j - from, k - from});
  }

  lemma TailsAgree(s: string, t: string, from: nat, i: nat, j: nat, k: nat)
    requires |s| == |t| && from <= i < j < k < |s|
    requires forall h | 0 <= h < |s| && h != i && h != j && h != k :: LowerCase(s[h]) == LowerCase(t[h])
    ensures forall h | 0 <= h < |s| - from && h !in {i - from, j - from, k - from} ::
      LowerCase(s[from..][h]) == LowerCase(t[from..][h])
  {
    hide LowerCase;
  }

  lemma SameValuesBut(s: string, t: string, wrong: set<nat>)
    requires |s| == |t| && (forall h | 0 <= h < |s| :: (s[h] as int) < 128 && (t[h] as int) < 128)
    requires forall h | 0 <= h < |s| && h !in wrong :: LowerCase(s[h]) == LowerCase(t[h])
    requires Values(s).Some? && Values(t).Some?
    ensures var x, y := Values(s).value, Values(t).value;
      |x| == |y| == |s| && forall h | 0 <= h < |s| && h !in wrong :: x[h] == y[h]
  {
    hide CharsetRev, LowerCase;
    forall h | 0 <= h < |s| && h !in wrong ensures Values(s).value[h] == Values(t).value[h] {
      RevOfLower(s[h], t[h]);
    }
  }

  lemma SameTriples(
    code: Code, encoding: Encoding, hrp: string, x: seq<Symbol>, y: seq<Symbol>, i: nat, j: nat, k: nat)
    requires forall h | 0 <= h < |hrp| :: Byte(hrp[h])
    requires |x| == |y| < 1023 && i < j < k < |x|
    requires forall h | 0 <= h < |x| && h !in {i, j, k} :: x[h] == y[h]
    requires VerifyChecksum(code, hrp, x) == Some(encoding) && VerifyChecksum(code, hrp, y) == Some(encoding)
    ensures x == y
  {
    hide Feed, Fits, Constant, ExpandHRP;
    var u := ExpandHRP(hrp);
    var q, p, r := x[i + 1..j], x[j + 1..k], x[k + 1..];
    SameParts(x, y, i, j, k);
    FeedParts(code, u, x, i, j, k);
    FeedParts(code, u, y, i, j, k);
    ConstantFits(code, encoding);
    FeedFits(code, Poly(1), u + x[..i]);
    CheckDistance.ThreeErrorsDetected(
      code, Feed(code, Poly(1), u + x[..i]), x[i], y[i], q, x[j], y[j], p, x[k], y[k], r);
    assert forall h | 0 <= h < |x| :: x[h] == y[h];
  }

  lemma SameParts(x: seq<Symbol>, y: seq<Symbol>, i: nat, j: nat, k: nat)
    requires |x| == |y| && i < j < k < |x| && forall h | 0 <= h < |x| && h !in {i, j, k} :: x[h] == y[h]
    ensures x[..i] == y[..i] && x[i + 1..j] == y[i + 1..j] && x[j + 1..k] == y[j + 1..k] && x[k + 1..] == y[k + 1..]
  {
  }

  lemma FeedParts(code: Code, u: seq<Symbol>, x: seq<Symbol>, i: nat, j: nat, k: nat)
    requires i < j < k < |x|
    ensures Feed(code, Poly(1), u + x) ==
      Feed(code, Feed(code, Poly(1), u + x[..i]),
           [x[i]] + x[i + 1..j] + [x[j]] + x[j + 1..k] + [x[k]] + x[k + 1..])
  {
    hide Feed;
    var rest := [x[i]] + x[i + 1..j] + [x[j]] + x[j + 1..k] + [x[k]] + x[k + 1..];
    assert x == x[..i] + rest;
    assert u + x == (u + x[..i]) + rest;
    FeedConcat(code, Poly(1), u + x[..i], rest);
  }

  /** The expansion loses nothing of the human-readable part. */
  lemma ExpandInjective(a: string, b: string)
    requires (forall i | 0 <= i < |a| :: Byte(a[i])) && (forall i | 0 <= i < |b| :: Byte(b[i]))
    ensures ExpandHRP(a) == ExpandHRP(b) ==> a == b
  {
    if ExpandHRP(a) == ExpandHRP(b) {
      var n := |a|;
      assert |b| == n;
      forall i | 0 <= i < n ensures a[i] == b[i] {
        assert ExpandHRP(a)[i] == a[i] as int / 32 && ExpandHRP(a)[i + n + 1] == a[i] as int % 32;
        assert ExpandHRP(b)[i] == b[i] as int / 32 && ExpandHRP(b)[i + n + 1] == b[i] as int % 32;
      }
    }
  }

  /** A short human-readable part is never mistaken for another of its length over the same data. */
  lemma HrpNeverConfused(code: Code, encoding: Encoding, a: string, b: string, values: seq<Symbol>)
    requires (forall i | 0 <= i < |a| :: Byte(a[i])) && (forall i | 0 <= i < |b| :: Byte(b[i]))
    requires |a| == |b| && 2 * |a| + 1 <= Length(code)
    requires VerifyChecksum(code, a, values) == Some(encoding) && VerifyChecksum(code, b, values) == Some(encoding)
    ensures a == b
  {
    hide Feed, Fits, Constant, ExpandHRP;
    ConstantFits(code, encoding);
    ExpandLength(a);
    ExpandLength(b);
    BurstDetected(code, Poly(1), ExpandHRP(a), ExpandHRP(b), values);
    ExpandInjective(a, b);
  }

  lemma ExpandLength(a: string)
    requires forall i | 0 <= i < |a| :: Byte(a[i])
    ensures |ExpandHRP(a)| == 2 * |a| + 1
  {
  }
}
