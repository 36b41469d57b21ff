/** The loops of the codec: digit buffers of an estimated size, multiplied and added to in place. */
module Base58Codec {
  import opened Wrappers
  import opened Base58
  import opened Base58Strings

  /** A buffer of digits in which the last length ones are in use. */
  ghost predicate Holds(b: nat, s: seq<nat>, length: nat) {
    && Digits(b, s) && length <= |s|
    && (forall i | 0 <= i < |s| - length :: s[i] == 0)
    && (length > 0 ==> s[|s| - length] != 0)
  }

  /** After some columns: the last used digits and the carry are the new value of that part. */
  ghost predicate Columns(b: nat, before: seq<nat>, buf: seq<nat>, factor: nat, digit: nat, carry: nat, used: nat,
      length: nat) {
    && |before| == |buf| && used <= |buf| && Digits(b, buf)
    && buf[..|buf| - used] == before[..|buf| - used]
    && Horner(b, buf[|buf| - used..]) + carry * Pow(b, used) == Horner(b, before[|buf| - used..]) * factor + digit
    && (used > length ==> carry != 0 || buf[|buf| - used] != 0)
  }

  /**
    buffer := buffer * factor + digit, from the last digit up. While the result fits into the
    buffer the carry ends at zero, and the length is again the number of digits in use.
  */
  method MultiplyAdd(buf: array<nat>, b: nat, factor: nat, digit: nat, length: nat) returns (used: nat)
    requires b > 1 && factor > 0 && Holds(b, buf[..], length)
    requires Horner(b, buf[..]) * factor + digit < Pow(b, buf.Length)
    modifies buf
    ensures Holds(b, buf[..], used) && length <= used
    ensures Horner(b, buf[..]) == Horner(b, old(buf[..])) * factor + digit
  {
    hide Horner, Pow, Columns, Holds;
    var size := buf.Length;
    ghost var before := buf[..];
    var carry: nat := digit;
    used := 0;
    FirstColumns(b, before, factor, digit, length);
    while (carry != 0 || used < length) && used < size
      invariant used <= size == |before|
      invariant Columns(b, before, buf[..], factor, digit, carry, used, length)
      decreases size - used
    {
      var p := size - 1 - used;
      var n := carry + factor * buf[p];
      NextColumn(b, before, buf[..], factor, digit, carry, used, length);
      ghost var current := buf[..];
      DivMod(n, b);
      var low: nat := n % b;
      buf[p] := low;
      assert buf[..] == current[p := low];
      carry := n / b;
      used := used + 1;
    }
    Ends(b, before, buf[..], factor, digit, carry, used, length);
    assert carry == 0;
  }

  lemma FirstColumns(b: nat, buf: seq<nat>, factor: nat, digit: nat, length: nat)
    requires Holds(b, buf, length)
    ensures Columns(b, buf, buf, factor, digit, digit, 0, length)
  {
  }

  lemma NextColumn(b: nat, before: seq<nat>, buf: seq<nat>, factor: nat, digit: nat, carry: nat, i: nat, length: nat)
    requires b > 1 && Columns(b, before, buf, factor, digit, carry, i, length) && i < |buf|
    requires Holds(b, before, length) && (carry != 0 || i < length)
    ensures var p := |buf| - 1 - i; var n := carry + factor * buf[p]; var low: nat := n % b;
      Columns(b, before, buf[p := low], factor, digit, n / b, i + 1, length)
  {
    hide Horner, Pow;
    var p := |buf| - 1 - i;
    assert buf[p] == buf[..p + 1][p] == before[p];
    Column(b, before, buf, factor, digit, carry, i);
    DivMod(carry + factor * buf[p], b);
    if i >= length { assert before[p] == 0; }
  }

  lemma DivMod(n: nat, b: nat)
    requires b > 1
    ensures n % b < b && n == n / b * b + n % b && (n > 0 ==> n / b != 0 || n % b != 0)
  {
  }

  /** One column: the digit replaced and the new carry keep the value. */
  lemma Column(b: nat, before: seq<nat>, buf: seq<nat>, factor: nat, digit: nat, carry: nat, i: nat)
    requires b > 1 && |before| == |buf| && i < |buf| && buf[|buf| - 1 - i] == before[|buf| - 1 - i]
    requires Horner(b, buf[|buf| - i..]) + carry * Pow(b, i) == Horner(b, before[|buf| - i..]) * factor + digit
    ensures var p := |buf| - 1 - i; var n := carry + factor * buf[p]; var low: nat := n % b;
      Horner(b, buf[p := low][p..]) + n / b * Pow(b, i + 1) == Horner(b, before[p..]) * factor + digit
  {
    hide Horner, Pow;
    var p := |buf| - 1 - i;
    var x := buf[p];
    var n := carry + factor * x;
    DivMod(n, b);
    var low: nat := n % b;
    assert buf[p := low][p..] == [low] + buf[p + 1..] && before[p..] == [x] + before[p + 1..];
    Front(b, low, buf[p + 1..]);
    Front(b, x, before[p + 1..]);
    PowStep(b, i);
    Sums(low, n / b, n, b, Pow(b, i), carry, factor, x, Horner(b, buf[p + 1..]), Horner(b, before[p + 1..]), digit);
  }

  lemma Front(b: nat, x: nat, s: seq<nat>)
    ensures Horner(b, [x] + s) == x * Pow(b, |s|) + Horner(b, s)
  {
    HornerConcat(b, [x], s);
    assert [x][..0] == [];
  }

  lemma Sums(r: nat, q: nat, n: nat, b: nat, p: nat, carry: nat, factor: nat, x: nat, low: nat, old_: nat, digit: nat)
    requires n == q * b + r && n == carry + factor * x && low + carry * p == old_ * factor + digit
    ensures r * p + low + q * (b * p) == (x * p + old_) * factor + digit
  {
    assert r * p + q * (b * p) == (q * b + r) * p;
    assert (carry + factor * x) * p == carry * p + factor * x * p;
    assert (x * p + old_) * factor == factor * x * p + old_ * factor;
  }

  lemma Ends(b: nat, before: seq<nat>, buf: seq<nat>, factor: nat, digit: nat, carry: nat, used: nat, length: nat)
    requires b > 1 && factor > 0 && |buf| == |before| && used <= |buf| && Holds(b, before, length)
    requires Horner(b, before) * factor + digit < Pow(b, |buf|)
    requires (carry == 0 && used >= length) || used == |buf|
    requires Columns(b, before, buf, factor, digit, carry, used, length)
    ensures carry == 0 && length <= used && Holds(b, buf, used) && Horner(b, buf) == Horner(b, before) * factor + digit
  {
    hide Horner, Pow;
    var n := |buf| - used;
    if used == |buf| {
      assert buf[n..] == buf && before[n..] == before;
      AtLeast(if carry == 0 then 1 else carry, Pow(b, used));
    }
    TailValue(b, before, n);
    TailValue(b, buf, n);
    if used == length && length > 0 {
      TopStays(b, before, buf, factor, digit, length);
    }
  }

  /** Zeros in front do not count. */
  lemma TailValue(b: nat, s: seq<nat>, n: nat)
    requires n <= |s| && forall i | 0 <= i < n :: s[i] == 0
    ensures Horner(b, s) == Horner(b, s[n..])
  {
    hide Horner, Pow;
    assert s == s[..n] + s[n..] && s[..n] == seq(n, _ => 0);
    HornerConcat(b, s[..n], s[n..]);
    HornerZeros(b, n);
  }

  /** The value does not shrink, so the first digit in use does not become zero. */
  lemma TopStays(b: nat, before: seq<nat>, buf: seq<nat>, factor: nat, digit: nat, length: nat)
    requires b > 1 && factor > 0 && |buf| == |before| && 0 < length <= |buf|
    requires Holds(b, before, length) && Digits(b, buf)
    requires forall i | 0 <= i < |buf| - length :: buf[i] == 0
    requires Horner(b, buf) == Horner(b, before) * factor + digit
    ensures buf[|buf| - length] != 0
  {
    hide Horner, Pow;
    var n := |buf| - length;
    TailValue(b, before, n);
    assert before[n..] == [before[n]] + before[n + 1..];
    Front(b, before[n], before[n + 1..]);
    AtLeast(before[n], Pow(b, length - 1));
    AtLeast(factor, Horner(b, before));
    if buf[n] == 0 {
      TailValue(b, buf, n + 1);
      HornerBelow(b, buf[n + 1..]);
      assert false;
    }
  }

  // ----- Encoding -----

  method EncodeBase58(input: seq<nat>) returns (str: string)
    requires Digits(256, input)
    ensures str == Encode(input)
  {
    hide Horner, Pow, Expand, Char;
    var zeroes := 0;
    while zeroes < |input| && input[zeroes] == 0
      invariant 0 <= zeroes <= |input| && forall i | 0 <= i < zeroes :: input[i] == 0
    {
      zeroes := zeroes + 1;
    }
    LeadingIs(0, input, zeroes);
    var rest := input[zeroes..];
    var digits, _ := ToBase58(rest);
    ExpandRight(58, Horner(256, rest));
    str := seq(zeroes, _ => '1');
    var i := 0;
    while i < |digits|
      invariant 0 <= i <= |digits| && str == seq(zeroes, _ => '1') + Chars(digits)[..i]
    {
      str := str + [Char(digits[i])];
      i := i + 1;
    }
  }

  /**
    The estimate of the size is enough, so the carry never runs off the buffer, and the loop
    over leading zeros skips none.
  */
  method ToBase58(rest: seq<nat>) returns (digits: seq<nat>, skipped: nat)
    requires Digits(256, rest)
    ensures digits == Expand(58, Horner(256, rest)) && skipped == 0
  {
    hide Horner, Pow, Expand;
    var size := |rest| * 138 / 100 + 1;
    var b58 := new nat[size](_ => 0);
    var length := 0;
    assert b58[..] == seq(size, _ => 0);
    HornerZeros(58, size);
    NoDigits(256);
    var k := 0;
    while k < |rest|
      invariant 0 <= k <= |rest| && 0 <= length && b58.Length == size && fresh(b58)
      invariant Holds(58, b58[..], length) && Horner(58, b58[..]) == Horner(256, rest[..k])
      modifies b58
    {
      assert rest[..k + 1] == rest[..k] + [rest[k]];
      Snoc(256, rest[..k], rest[k]);
      Room58(rest, k + 1);
      length := MultiplyAdd(b58, 58, 256, rest[k], length);
      k := k + 1;
    }
    assert rest[..|rest|] == rest;
    Padded(58, b58[..], length);
    var start := SkipZeros(b58, size - length);
    skipped := start - (size - length);
    digits := b58[start..];
    assert digits == b58[..][size - length..];
  }

  method SkipZeros(buf: array<nat>, from: nat) returns (start: nat)
    requires from <= buf.Length
    ensures from <= start <= buf.Length && (forall i | from <= i < start :: buf[i] == 0)
    ensures start < buf.Length ==> buf[start] != 0
  {
    start := from;
    while start < buf.Length && buf[start] == 0
      invariant from <= start <= buf.Length && forall i | from <= i < start :: buf[i] == 0
    {
      start := start + 1;
    }
  }

  lemma Room58(rest: seq<nat>, k: nat)
    requires Digits(256, rest) && k <= |rest|
    ensures Horner(256, rest[..k]) < Pow(58, |rest| * 138 / 100 + 1)
  {
    hide Horner, Pow;
    HornerBelow(256, rest[..k]);
    PowGrows(256, k, |rest|);
    Fits58(|rest|);
  }

  // ----- Decoding -----

  method DecodeBase58(s: string, max: int) returns (r: Option<seq<nat>>)
    ensures r == Decode(s, max)
  {
    hide Horner, Pow, Expand, Digit, IsSpace;
    if (0 as char) in s { return None; }
    var start := SkipSpaces(s, 0);
    assert s[0..] == s;
    var t := s[start..];
    ghost var word := Stripped(s);
    OnesInWord(t);
    var zeroes := 0;
    while zeroes < |t| && t[zeroes] == '1'
      invariant 0 <= zeroes <= Leading('1', t) && (zeroes > 0 ==> zeroes <= max)
    {
      zeroes := zeroes + 1;
      if zeroes > max { return None; }
    }
    LeadingIs('1', t, zeroes);
    var end := FindSpace(t, zeroes);
    assert t[zeroes..end] == word[zeroes..];
    var bytes := FromBase58(t[zeroes..end], |t| - zeroes, zeroes, max);
    OnesAreDigits(word, zeroes);
    NoBytes(word[zeroes..]);
    if bytes.None? { return None; }
    var pos := SkipSpaces(t, end);
    if pos != |t| { return None; }
    return Some(seq(zeroes, _ => 0) + bytes.value);
  }

  lemma {:induction false} OnesInWord(t: string)
    ensures Leading('1', t) <= WordLength(t) && Leading('1', t[..WordLength(t)]) == Leading('1', t)
    decreases |t|
  {
    hide IsSpace;
    OneIsNoSpace();
    if t != [] && !IsSpace(t[0]) && t[0] == '1' {
      OnesInWord(t[1..]);
      assert t[..WordLength(t)][1..] == t[1..][..WordLength(t[1..])];
    }
  }

  lemma NoBytes(w: string)
    ensures w == [] ==> Expand(256, Horner(58, Values(w))) == []
  {
  }

  lemma OneIsNoSpace()
    ensures !IsSpace('1')
  {
  }

  lemma OnesAreDigits(word: string, z: nat)
    requires z == Leading('1', word)
    ensures InAlphabet(word) <==> InAlphabet(word[z..])
  {
    hide Digit;
    CharOne();
    assert forall i | z <= i < |word| :: word[i] == word[z..][i - z];
  }

  method FindSpace(t: string, from: nat) returns (end: nat)
    requires from <= WordLength(t)
    ensures end == WordLength(t)
  {
    hide IsSpace;
    end := from;
    while end < |t| && !IsSpace(t[end])
      invariant from <= end <= WordLength(t)
    {
      end := end + 1;
    }
  }

  /** The bytes of a word after its ones; the estimate of the size is enough here too. */
  method FromBase58(w: string, capacity: nat, zeroes: nat, max: int) returns (r: Option<seq<nat>>)
    requires |w| <= capacity
    ensures r ==
      if !InAlphabet(w) || (w != [] && zeroes + |Expand(256, Horner(58, Values(w)))| > max) then None
      else Some(Expand(256, Horner(58, Values(w))))
  {
    hide Horner, Pow, Expand, Digit, Char;
    var size := capacity * 733 / 1000 + 1;
    var b256 := new nat[size](_ => 0);
    var length := 0;
    assert b256[..] == seq(size, _ => 0);
    HornerZeros(256, size);
    NoDigits(58);
    var k := 0;
    while k < |w|
      invariant 0 <= k <= |w| && 0 <= length && b256.Length == size && fresh(b256) && InAlphabet(w[..k])
      invariant Holds(256, b256[..], length) && Horner(256, b256[..]) == Horner(58, Values(w[..k]))
      invariant k > 0 ==> length + zeroes <= max
      modifies b256
    {
      var digit := Digit(w[k]);
      if digit == -1 { return None; }
      CharOfDigit(w[k]);
      assert w[..k + 1] == w[..k] + [w[k]];
      assert Values(w[..k + 1]) == Values(w[..k]) + [digit];
      Snoc(58, Values(w[..k]), digit);
      Room256(w[..k + 1], capacity);
      length := MultiplyAdd(b256, 256, 58, digit, length);
      k := k + 1;
      if length + zeroes > max {
        Padded(256, b256[..], length);
        Longer(w, k);
        return None;
      }
    }
    assert w[..|w|] == w;
    Padded(256, b256[..], length);
    r := Some(b256[size - length..]);
    assert r.value == b256[..][size - length..];
  }

  lemma Room256(w: string, capacity: nat)
    requires InAlphabet(w) && |w| <= capacity
    ensures Horner(58, Values(w)) < Pow(256, capacity * 733 / 1000 + 1)
  {
    hide Horner, Pow;
    HornerBelow(58, Values(w));
    PowGrows(58, |w|, capacity);
    Fits256(capacity);
  }

  /** More digits make no fewer bytes. */
  lemma Longer(w: string, k: nat)
    requires k <= |w| && InAlphabet(w[..k])
    ensures InAlphabet(w) ==> |Expand(256, Horner(58, Values(w[..k])))| <= |Expand(256, Horner(58, Values(w)))|
  {
    hide Horner, Pow, Expand, Digit;
    if InAlphabet(w) {
      var v := Values(w);
      assert Values(w[..k]) == v[..k];
      assert v == v[..k] + v[k..];
      HornerConcat(58, v[..k], v[k..]);
      AtLeast(Pow(58, |v| - k), Horner(58, v[..k]));
      assert Horner(58, v[..k]) * Pow(58, |v| - k) == Pow(58, |v| - k) * Horner(58, v[..k]);
      LongerExpansion(256, Horner(58, v[..k]), Horner(58, v));
    }
  }

  lemma {:induction false} LongerExpansion(b: nat, v: nat, w: nat)
    requires b > 1 && v <= w
    ensures |Expand(b, v)| <= |Expand(b, w)|
    decreases w
  {
    if v > 0 {
      Smaller(v, b);
      Smaller(w, b);
      QuotientGrows(v, w, b);
      LongerExpansion(b, v / b, w / b);
    }
  }

  lemma QuotientGrows(v: nat, w: nat, b: nat)
    requires b > 0 && v <= w
    ensures v / b <= w / b
  {
    var q, p := v / b, w / b;
    assert v == q * b + v % b && w == p * b + w % b;
    Mono(p + 1, q, b);
    assert (p + 1) * b == p * b + b;
  }

  method SkipSpaces(s: string, from: nat) returns (pos: nat)
    requires from <= |s|
    ensures pos == from + Spaces(s[from..])
  {
    hide IsSpace;
    pos := from;
    while pos < |s| && IsSpace(s[pos])
      invariant from <= pos <= |s| && pos + Spaces(s[pos..]) == from + Spaces(s[from..])
    {
      assert s[pos..][1..] == s[pos + 1..];
      pos := pos + 1;
    }
  }
}
