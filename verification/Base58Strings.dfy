/** Base58 strings. Characters stand for bytes. */
module Base58Strings {
  import opened Wrappers
  import opened Base58

  /** The alphabet by its runs: the letters I, O and l and the digit zero are left out. */
  function Char(d: nat): char
    requires d < 58
  {
    if d < 9 then (d + 49) as char            // 1 to 9
    else if d < 17 then (d - 9 + 65) as char  // A to H
    else if d < 22 then (d - 17 + 74) as char // J to N
    else if d < 33 then (d - 22 + 80) as char // P to Z
    else if d < 44 then (d - 33 + 97) as char // a to k
    else (d - 44 + 109) as char               // m to z
  }

  /** The reverse table; -1 for a character that is not in the alphabet. */
  function Digit(c: char): int {
    var i := c as int;
    if 49 <= i <= 57 then i - 49
    else if 65 <= i <= 72 then i - 65 + 9
    else if 74 <= i <= 78 then i - 74 + 17
    else if 80 <= i <= 90 then i - 80 + 22
    else if 97 <= i <= 107 then i - 97 + 33
    else if 109 <= i <= 122 then i - 109 + 44
    else -1
  }

  predicate IsSpace(c: char) {
    c == ' ' || 9 <= c as int <= 13
  }

  lemma DigitOfChar(d: nat)
    requires d < 58
    ensures Digit(Char(d)) == d && !IsSpace(Char(d)) && Char(d) as int != 0 && (Char(d) == '1' <==> d == 0)
  {
  }

  lemma CharOfDigit(c: char)
    requires Digit(c) != -1
    ensures 0 <= Digit(c) < 58 && Char(Digit(c)) == c
  {
  }

  /** The alphabet is the digits and letters but for 0, O, I and l, and the digits follow their order. */
  lemma AlphabetIs(c: char, d: char)
    ensures Digit(c) != -1 <==> ('0' <= c <= '9' || 'A' <= c <= 'Z' || 'a' <= c <= 'z') && c !in "0OIl"
    ensures Digit(c) != -1 && Digit(d) != -1 ==> (Digit(c) < Digit(d) <==> c < d)
  {
  }

  // ----- Encoding -----

  /** How many times a value leads. */
  function Leading<T(==)>(x: T, s: seq<T>): (n: nat)
    ensures n <= |s| && (forall i | 0 <= i < n :: s[i] == x) && (n < |s| ==> s[n] != x)
  {
    if s == [] || s[0] != x then 0 else 1 + Leading(x, s[1..])
  }

  function Chars(w: seq<nat>): (s: string)
    requires Digits(58, w)
    ensures |s| == |w| && forall i | 0 <= i < |w| :: s[i] == Char(w[i])
  {
    seq(|w|, i requires 0 <= i < |w| && w[i] < 58 => Char(w[i]))
  }

  function Encode(input: seq<nat>): string
    requires Digits(256, input)
  {
    var z := Leading(0, input);
    ExpandRight(58, Horner(256, input[z..]));
    seq(z, _ => '1') + Chars(Expand(58, Horner(256, input[z..])))
  }

  // ----- Decoding -----

  function Spaces(s: string): (n: nat)
    ensures n <= |s| && (forall i | 0 <= i < n :: IsSpace(s[i])) && (n < |s| ==> !IsSpace(s[n]))
  {
    if s == [] || !IsSpace(s[0]) then 0 else 1 + Spaces(s[1..])
  }

  /** The length up to the first space. */
  function WordLength(s: string): (n: nat)
    ensures n <= |s| && (forall i | 0 <= i < n :: !IsSpace(s[i])) && (n < |s| ==> IsSpace(s[n]))
  {
    if s == [] || IsSpace(s[0]) then 0 else 1 + WordLength(s[1..])
  }

  predicate InAlphabet(s: string) {
    forall i | 0 <= i < |s| :: Digit(s[i]) != -1
  }

  function Values(s: string): (w: seq<nat>)
    requires InAlphabet(s)
    ensures |w| == |s| && Digits(58, w) && forall i | 0 <= i < |s| :: w[i] == Digit(s[i]) && Char(w[i]) == s[i]
  {
    ValuesFit(s);
    seq(|s|, i requires 0 <= i < |s| && 0 <= Digit(s[i]) => Digit(s[i]))
  }

  lemma ValuesFit(s: string)
    requires InAlphabet(s)
    ensures forall i | 0 <= i < |s| :: 0 <= Digit(s[i]) < 58 && Char(Digit(s[i])) == s[i]
  {
    forall i | 0 <= i < |s| ensures 0 <= Digit(s[i]) < 58 && Char(Digit(s[i])) == s[i] {
      CharOfDigit(s[i]);
    }
  }

  /** The string without the spaces around it, if there is just one word. */
  function Stripped(s: string): string {
    var t := s[Spaces(s)..];
    t[..WordLength(t)]
  }

  predicate OneWord(s: string) {
    var t := s[Spaces(s)..];
    Spaces(t[WordLength(t)..]) == |t| - WordLength(t)
  }

  function Decode(s: string, max: int): Option<seq<nat>> {
    if (0 as char) in s || !OneWord(s) || !InAlphabet(Stripped(s)) then None else
    var word := Stripped(s);
    var z := Leading('1', word);
    var bytes := Expand(256, Horner(58, Values(word[z..])));
    if word != [] && z + |bytes| > max then None else Some(seq(z, _ => 0) + bytes)
  }

  // ----- Round trips -----

  lemma {:induction false} LeadingIs<T>(x: T, s: seq<T>, n: nat)
    requires n <= |s| && (forall i | 0 <= i < n :: s[i] == x) && (n < |s| ==> s[n] != x)
    ensures Leading(x, s) == n
    decreases n
  {
    if n > 0 { LeadingIs(x, s[1..], n - 1); }
  }

  lemma {:induction false} WholeWord(s: string)
    requires forall i | 0 <= i < |s| :: !IsSpace(s[i])
    ensures WordLength(s) == |s|
  {
    if s != [] { WholeWord(s[1..]); }
  }

  lemma OneWordIs(s: string)
    requires forall i | 0 <= i < |s| :: !IsSpace(s[i])
    ensures OneWord(s) && Stripped(s) == s
  {
    assert Spaces(s) == 0;
    assert s[0..] == s;
    WholeWord(s);
  }

  lemma EncodedChars(input: seq<nat>)
    requires Digits(256, input)
    ensures var s := Encode(input); var z := Leading(0, input);
      && (0 as char) !in s && InAlphabet(s) && (forall i | 0 <= i < |s| :: !IsSpace(s[i]))
      && Leading('1', s) == z && InAlphabet(s[z..]) && Values(s[z..]) == Expand(58, Horner(256, input[z..]))
  {
    hide Digit, Char, IsSpace, Horner, Expand;
    var z := Leading(0, input);
    var w := Expand(58, Horner(256, input[z..]));
    ExpandRight(58, Horner(256, input[z..]));
    var s := Encode(input);
    DigitOfChar(0);
    OneIsZero();
    forall i | 0 <= i < |s|
      ensures Digit(s[i]) == (if i < z then 0 else w[i - z]) && !IsSpace(s[i]) && s[i] != 0 as char
      ensures s[i] == '1' <==> i < z || w[i - z] == 0
    {
      if i >= z { DigitOfChar(w[i - z]); }
    }
    LeadingIs('1', s, z);
    assert forall i | 0 <= i < |s| - z :: s[z..][i] == s[z + i];
    assert Values(s[z..]) == w;
  }

  lemma OneIsZero()
    ensures Char(0) == '1'
  {
  }

  /** What is encoded decodes to itself exactly when it is within the limit. */
  lemma EncodeDecode(input: seq<nat>, max: int)
    requires Digits(256, input)
    ensures Decode(Encode(input), max) == if input == [] || |input| <= max then Some(input) else None
  {
    hide Digit, Char, IsSpace, Horner, Expand;
    var s, z := Encode(input), Leading(0, input);
    EncodedChars(input);
    OneWordIs(s);
    var v := Horner(256, input[z..]);
    ExpandRight(58, v);
    ExpandUnique(256, input[z..]);
    assert input == seq(z, _ => 0) + input[z..];
    assert |s| == z + |Expand(58, v)|;
    if z == 0 { EmptyEncoding(input); }
  }

  lemma EmptyEncoding(input: seq<nat>)
    requires Digits(256, input) && Leading(0, input) == 0
    ensures Expand(58, Horner(256, input[0..])) == [] <==> input == []
  {
    assert input[0..] == input;
    ExpandRight(58, Horner(256, input));
    if input != [] { NotZero(256, input); }
  }

  /** What decodes is encoded to the same string without the spaces around it. */
  lemma DecodeEncode(s: string, max: int)
    requires Decode(s, max).Some?
    ensures Digits(256, Decode(s, max).value) && Encode(Decode(s, max).value) == Stripped(s)
  {
    hide Stripped, OneWord, Encode, Digit, Char, Horner, Expand, InAlphabet;
    WordEncodes(Stripped(s));
  }

  lemma WordEncodes(word: string)
    requires InAlphabet(word)
    ensures var z := Leading('1', word);
      && InAlphabet(word[z..])
      && var out := seq(z, _ => 0) + Expand(256, Horner(58, Values(word[z..])));
      Digits(256, out) && Encode(out) == word
  {
    hide Digit, Char, Horner, Expand;
    var z := Leading('1', word);
    var w := Values(word[z..]);
    var v := Horner(58, w);
    ExpandRight(256, v);
    var out := seq(z, _ => 0) + Expand(256, v);
    LeadingIs(0, out, z);
    assert out[z..] == Expand(256, v);
    CharOne();
    assert w != [] ==> word[z..][0] == word[z] && w[0] != 0;
    ExpandUnique(58, w);
    assert Chars(w) == word[z..];
    assert word == seq(z, _ => '1') + word[z..];
  }

  lemma CharOne()
    ensures Digit('1') == 0
    ensures forall c | Digit(c) == 0 :: c == '1'
  {
  }

  // ----- Spaces -----

  /** The characters that may surround a word: space, tab, line feed, vertical tab, form feed, carriage return. */
  ghost predicate Blank(s: string) {
    forall i | 0 <= i < |s| :: BlankChar(s[i] as int)
  }

  predicate BlankChar(c: int) {
    c == 32 || c == 9 || c == 10 || c == 11 || c == 12 || c == 13
  }

  lemma {:induction false} SpacesIs(s: string, n: nat)
    requires n <= |s| && Blank(s[..n]) && (n < |s| ==> Digit(s[n]) != -1)
    ensures Spaces(s) == n
    decreases n
  {
    if n == 0 {
      if s != [] { NoSpace(s[0]); }
    } else {
      assert s[..n][0] == s[0];
      assert s[1..][..n - 1] == s[..n][1..];
      SpacesIs(s[1..], n - 1);
    }
  }

  lemma {:induction false} WordLengthIs(s: string, n: nat)
    requires n <= |s| && InAlphabet(s[..n]) && (n < |s| ==> Blank(s[n..]))
    ensures WordLength(s) == n
    decreases n
  {
    if n == 0 {
      if s != [] { assert s[0..][0] == s[0]; }
    } else {
      assert s[..n][0] == s[0];
      NoSpace(s[0]);
      assert s[1..][..n - 1] == s[..n][1..];
      if n < |s| { assert s[1..][n - 1..] == s[n..]; }
      WordLengthIs(s[1..], n - 1);
    }
  }

  lemma NoSpace(c: char)
    requires Digit(c) != -1
    ensures !IsSpace(c) && c as int != 0
  {
  }

  /** Blanks around a word make no difference. */
  lemma DecodePadded(before: string, word: string, after: string, max: int)
    requires Blank(before) && InAlphabet(word) && Blank(after)
    ensures Decode(before + word + after, max) == Decode(word, max)
  {
    hide Digit, Horner, Expand;
    var s := before + word + after;
    Apart(before, word, after);
    Apart("", word, "");
    assert "" + word + "" == word;
  }

  lemma Apart(before: string, word: string, after: string)
    requires Blank(before) && InAlphabet(word) && Blank(after)
    ensures var s := before + word + after; (0 as char) !in s && OneWord(s) && Stripped(s) == word
  {
    hide Digit, OneWord, Stripped;
    forall i | 0 <= i < |word| ensures word[i] as int != 0 { NoSpace(word[i]); }
    if word == [] { NoWord(before + after); assert before + word + after == before + after; }
    else { WordBetween(before, word, after); }
  }

  lemma NoWord(s: string)
    requires Blank(s)
    ensures OneWord(s) && Stripped(s) == []
  {
    assert s[..|s|] == s;
    SpacesIs(s, |s|);
    assert s[|s|..] == [];
  }

  lemma WordBetween(before: string, word: string, after: string)
    requires Blank(before) && InAlphabet(word) && Blank(after) && word != []
    ensures OneWord(before + word + after) && Stripped(before + word + after) == word
  {
    hide Digit, BlankChar;
    var s, t := before + word + after, word + after;
    assert s[..|before|] == before && s[|before|] == word[0] && s[|before|..] == t;
    SpacesIs(s, |before|);
    assert t[..|word|] == word && t[|word|..] == after;
    WordLengthIs(t, |word|);
    assert after[..|after|] == after;
    SpacesIs(after, |after|);
  }

  /** A string that decodes is a word of the alphabet between blanks. */
  lemma DecodedParts(s: string, max: int) returns (before: string, after: string)
    requires Decode(s, max).Some?
    ensures Blank(before) && InAlphabet(Stripped(s)) && Blank(after) && s == before + Stripped(s) + after
  {
    before, after := WordParts(s);
  }

  lemma WordParts(s: string) returns (before: string, after: string)
    requires OneWord(s)
    ensures Blank(before) && Blank(after) && s == before + Stripped(s) + after
  {
    var n := Spaces(s);
    var t := s[n..];
    before, after := s[..n], t[WordLength(t)..];
    assert t == t[..WordLength(t)] + after;
  }
}
