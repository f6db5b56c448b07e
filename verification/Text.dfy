/** Decimal and hexadecimal text, as `String`, `BigInt`, `Buffer.from` and `toString('hex')`
    read and write it. */
module Text {
  import opened Results

  // ----- Decimal -----

  predicate IsDigit(c: char) {
    '0' <= c <= '9'
  }

  predicate AllDigits(s: string) {
    forall i :: 0 <= i < |s| ==> IsDigit(s[i])
  }

  function Digits(n: nat): (s: string) {
    if n < 10 then ['0' + n as char] else Digits(n / 10) + ['0' + (n % 10) as char]
  }

  function DigitsValue(s: string): (n: nat)
    requires AllDigits(s)
  {
    if s == [] then 0 else 10 * DigitsValue(s[..|s| - 1]) + (s[|s| - 1] - '0') as nat
  }

  /** `String(n)`. */
  function Decimal(n: int): (s: string) {
    if n < 0 then "-" + Digits(-n) else Digits(n)
  }

  /** `BigInt(s)` on optionally signed decimal text. */
  function ParseDecimal(s: string): (r: Result<int>) {
    if s != [] && AllDigits(s) then Ok(DigitsValue(s))
    else if |s| > 1 && s[0] in {'+', '-'} && AllDigits(s[1..]) then
      var magnitude: int := DigitsValue(s[1..]);
      Ok(if s[0] == '-' then -magnitude else magnitude)
    else Err("SyntaxError: Cannot convert to a BigInt")
  }

  /** Digits without a leading zero. */
  predicate PlainDigits(s: string) {
    s != [] && AllDigits(s) && (|s| > 1 ==> s[0] != '0')
  }

  /** The decimal texts that `String` writes. */
  predicate CanonicalDecimal(s: string) {
    PlainDigits(s) || (|s| > 1 && s[0] == '-' && PlainDigits(s[1..]) && s[1..] != "0")
  }

  lemma {:induction false} DigitsArePlain(n: nat)
    ensures PlainDigits(Digits(n)) && DigitsValue(Digits(n)) == n && (Digits(n)[0] == '0' ==> n == 0)
  {
    if n >= 10 {
      DigitsArePlain(n / 10);
      assert Digits(n)[..|Digits(n)| - 1] == Digits(n / 10);
    } else {
      assert Digits(n)[..0] == [];
    }
  }

  lemma {:induction false} PlainDigitsRoundTrip(s: string)
    requires PlainDigits(s)
    ensures Digits(DigitsValue(s)) == s
    ensures s[0] != '0' ==> DigitsValue(s) > 0
    decreases |s|
  {
    var front, last := s[..|s| - 1], s[|s| - 1];
    if |s| == 1 {
      assert front == [];
    } else {
      PlainDigitsRoundTrip(front);
      assert s == front + [last];
    }
  }

  /** Printing undoes parsing exactly on the texts that `String` writes. */
  lemma DecimalRoundTripIff(s: string)
    ensures ParseDecimal(s).Ok? && Decimal(ParseDecimal(s).value) == s <==> CanonicalDecimal(s)
  {
    if PlainDigits(s) {
      PlainDigitsRoundTrip(s);
    } else if CanonicalDecimal(s) {
      PlainDigitsRoundTrip(s[1..]);
      assert s == "-" + s[1..];
    } else if ParseDecimal(s).Ok? {
      var n := ParseDecimal(s).value;
      DigitsArePlain(if n < 0 then -n else n);
      assert n < 0 ==> Decimal(n)[1..] == Digits(-n);
    }
  }

  /** Parsing undoes printing on every integer. */
  lemma ParseUndoesDecimal(n: int)
    ensures ParseDecimal(Decimal(n)) == Ok(n) && CanonicalDecimal(Decimal(n))
  {
    DigitsArePlain(if n < 0 then -n else n);
    if n < 0 {
      assert Decimal(n)[1..] == Digits(-n);
      assert !IsDigit(Decimal(n)[0]);
      assert Digits(-n)[0] != '0';
    }
  }

  predicate AllZeros(s: string) {
    forall i :: 0 <= i < |s| ==> s[i] == '0'
  }

  /** `s` is the decimal text of `n` with a sign and leading zeros allowed. */
  predicate DenotesWith(s: string, sign: string, zeros: string, n: int) {
    s == sign + zeros + Digits(if n < 0 then -n else n) && AllZeros(zeros) &&
    (((sign == "" || sign == "+") && n >= 0) || (sign == "-" && n <= 0))
  }

  ghost predicate DenotesInt(s: string, n: int) {
    exists sign, zeros :: DenotesWith(s, sign, zeros, n)
  }

  lemma {:induction false} ZerosAddNothing(zeros: string, s: string)
    requires AllZeros(zeros) && AllDigits(s)
    ensures AllDigits(zeros + s) && DigitsValue(zeros + s) == DigitsValue(s)
    decreases |s|
  {
    if s == [] {
      assert zeros + s == zeros;
      OnlyZeros(zeros);
    } else {
      var front := s[..|s| - 1];
      ZerosAddNothing(zeros, front);
      assert (zeros + s)[..|zeros + s| - 1] == zeros + front;
    }
  }

  lemma {:induction false} OnlyZeros(zeros: string)
    requires AllZeros(zeros)
    ensures AllDigits(zeros) && DigitsValue(zeros) == 0
    decreases |zeros|
  {
    if zeros == [] {
    } else {
      OnlyZeros(zeros[..|zeros| - 1]);
    }
  }

  /** Every text of digits is zeros and then the digits of its value. */
  lemma {:induction false} LeadingZeros(s: string) returns (zeros: string)
    requires s != [] && AllDigits(s)
    ensures AllZeros(zeros) && s == zeros + Digits(DigitsValue(s))
    decreases |s|
  {
    if |s| > 1 && s[0] == '0' {
      var rest := LeadingZeros(s[1..]);
      zeros := "0" + rest;
      assert s == "0" + s[1..];
      ZerosAddNothing("0", s[1..]);
    } else {
      PlainDigitsRoundTrip(s);
      zeros := "";
    }
  }

  /** Parsing accepts exactly the decimal texts and gives the number they denote. */
  lemma ParseDecimalIff(s: string, n: int)
    ensures ParseDecimal(s) == Ok(n) <==> DenotesInt(s, n)
  {
    if ParseDecimal(s) == Ok(n) {
      if s != [] && AllDigits(s) {
        var zeros := LeadingZeros(s);
        assert DenotesWith(s, "", zeros, n);
      } else {
        var zeros := LeadingZeros(s[1..]);
        assert s == [s[0]] + s[1..];
        assert DenotesWith(s, [s[0]], zeros, n);
      }
    }
    if sign, zeros :| DenotesWith(s, sign, zeros, n) {
      DenotedIsParsed(s, sign, zeros, n);
    }
  }

  lemma SignedIsParsed(s: string, body: string)
    requires |s| == |body| + 1 && s[1..] == body && (s[0] == '+' || s[0] == '-')
    requires body != [] && AllDigits(body)
    ensures var magnitude: int := DigitsValue(body);
            ParseDecimal(s) == Ok(if s[0] == '-' then -magnitude else magnitude)
  {
    assert !IsDigit(s[0]);
  }

  lemma DenotedIsParsed(s: string, sign: string, zeros: string, n: int)
    requires DenotesWith(s, sign, zeros, n)
    ensures ParseDecimal(s) == Ok(n)
  {
    DigitsArePlain(if n < 0 then -n else n);
    PartsAreParsed(s, sign, zeros, Digits(if n < 0 then -n else n), n);
  }

  lemma PartsAreParsed(s: string, sign: string, zeros: string, digits: string, n: int)
    requires s == sign + zeros + digits && AllZeros(zeros) && digits != [] && AllDigits(digits)
    requires DigitsValue(digits) == if n < 0 then -n else n
    requires ((sign == "" || sign == "+") && n >= 0) || (sign == "-" && n <= 0)
    ensures ParseDecimal(s) == Ok(n)
  {
    var body := zeros + digits;
    ZerosAddNothing(zeros, digits);
    assert s == sign + body;
    if sign == "" {
      assert s == body;
    } else {
      SignedIsParsed(s, body);
    }
  }

  // ----- Hexadecimal -----

  type Byte = b: nat | b < 256

  function NibbleChar(n: nat): (c: char)
    requires n < 16
  {
    if n < 10 then '0' + n as char else 'a' + (n - 10) as char
  }

  /** The value of a hexadecimal digit in either case. */
  function Nibble(c: char): (n: Option<nat>)
    ensures n.Some? ==> n.value < 16
  {
    if '0' <= c <= '9' then Some((c - '0') as nat)
    else if 'a' <= c <= 'f' then Some((c - 'a') as nat + 10)
    else if 'A' <= c <= 'F' then Some((c - 'A') as nat + 10)
    else None
  }

  /** `Buffer.from(s, 'hex')`: decoding stops at the first pair that is not hexadecimal. */
  function FromHex(s: string): (bytes: seq<Byte>) {
    if |s| < 2 || Nibble(s[0]).None? || Nibble(s[1]).None? then []
    else [16 * Nibble(s[0]).value + Nibble(s[1]).value] + FromHex(s[2..])
  }

  /** `buffer.toString('hex')`. */
  function ToHex(bytes: seq<Byte>): (s: string) {
    if bytes == [] then "" else [NibbleChar(bytes[0] / 16), NibbleChar(bytes[0] % 16)] + ToHex(bytes[1..])
  }

  predicate LowerHexDigit(c: char) {
    '0' <= c <= '9' || 'a' <= c <= 'f'
  }

  predicate LowerHex(s: string) {
    |s| % 2 == 0 && forall i :: 0 <= i < |s| ==> LowerHexDigit(s[i])
  }

  lemma LowerHexSplit(s: string)
    requires |s| >= 2
    ensures LowerHex(s) <==> LowerHexDigit(s[0]) && LowerHexDigit(s[1]) && LowerHex(s[2..])
  {
    if LowerHexDigit(s[0]) && LowerHexDigit(s[1]) && LowerHex(s[2..]) {
      assert forall i :: 2 <= i < |s| ==> s[i] == s[2..][i - 2];
    }
  }

  lemma PairSplit(t: string, c: char, d: char, rest: string, s: string)
    requires t == [c, d] + rest && |s| >= 2
    ensures t == s <==> c == s[0] && d == s[1] && rest == s[2..]
  {
    assert s == [s[0], s[1]] + s[2..];
    assert t[2..] == rest;
  }

  lemma NibbleRoundTrip(c: char)
    requires Nibble(c).Some?
    ensures NibbleChar(Nibble(c).value) == c <==> LowerHexDigit(c)
  {
  }

  /** Printing undoes decoding exactly on lower-case text of even length. */
  lemma {:induction false} HexRoundTripIff(s: string)
    ensures ToHex(FromHex(s)) == s <==> LowerHex(s)
    decreases |s|
  {
    if |s| >= 2 && Nibble(s[0]).Some? && Nibble(s[1]).Some? {
      var bytes, rest := FromHex(s), FromHex(s[2..]);
      HexRoundTripIff(s[2..]);
      NibbleRoundTrip(s[0]);
      NibbleRoundTrip(s[1]);
      LowerHexSplit(s);
      assert bytes[1..] == rest;
      PairSplit(ToHex(bytes), NibbleChar(bytes[0] / 16), NibbleChar(bytes[0] % 16), ToHex(rest), s);
    } else {
      assert FromHex(s) == [] && ToHex([]) == "";
    }
  }

  predicate HexDigit(c: char) {
    48 <= c as int <= 57 || 65 <= c as int <= 70 || 97 <= c as int <= 102
  }

  /** `c` is the lower-case form of the hexadecimal digit `d`; capitals move down by 32. */
  predicate Lowered(d: char, c: char) {
    HexDigit(d) && c as int == d as int + if 65 <= d as int <= 70 then 32 else 0
  }

  predicate LoweredPrefix(s: string, t: string) {
    |t| <= |s| && forall i :: 0 <= i < |t| ==> Lowered(s[i], t[i])
  }

  /** No further pair of digits follows after `t` in `s`. */
  predicate NoPairAfter(s: string, t: string) {
    |t| + 2 <= |s| ==> !(HexDigit(s[|t|]) && HexDigit(s[|t| + 1]))
  }

  /** `bytes` are the bytes behind the longest prefix of `s` made of pairs of hexadecimal digits:
      their text is that prefix in lower case. */
  predicate DenotesHex(s: string, bytes: seq<Byte>) {
    LoweredPrefix(s, ToHex(bytes)) && NoPairAfter(s, ToHex(bytes))
  }

  lemma NibbleDenotes(c: char, n: nat)
    requires n < 16
    ensures Nibble(c) == Some(n) <==> Lowered(c, NibbleChar(n))
  {
  }

  /** Decoding gives exactly the bytes that the text denotes, in either case. */
  lemma {:induction false} FromHexIff(s: string, bytes: seq<Byte>)
    ensures FromHex(s) == bytes <==> DenotesHex(s, bytes)
    decreases |s|
  {
    if |s| < 2 || Nibble(s[0]).None? || Nibble(s[1]).None? {
      NoFirstByte(s, bytes);
    } else if bytes == [] {
    } else {
      FromHexIff(s[2..], bytes[1..]);
      FirstByte(s, bytes);
    }
  }

  lemma NoFirstByte(s: string, bytes: seq<Byte>)
    requires |s| < 2 || Nibble(s[0]).None? || Nibble(s[1]).None?
    ensures DenotesHex(s, bytes) <==> bytes == []
  {
    FirstPair(s, ToHex(bytes));
  }

  lemma FirstPair(s: string, t: string)
    ensures LoweredPrefix(s, t) && |t| >= 2 ==> |s| >= 2 && HexDigit(s[0]) && HexDigit(s[1])
  {
    if LoweredPrefix(s, t) && |t| >= 2 {
      assert Lowered(s[0], t[0]) && Lowered(s[1], t[1]);
    }
  }

  lemma LoweredSplit(s: string, c: char, d: char, t: string)
    requires |s| >= 2
    ensures LoweredPrefix(s, [c, d] + t) <==> Lowered(s[0], c) && Lowered(s[1], d) && LoweredPrefix(s[2..], t)
  {
    var u := [c, d] + t;
    if LoweredPrefix(s, u) {
      assert Lowered(s[0], u[0]) && Lowered(s[1], u[1]);
      forall i | 0 <= i < |t|
        ensures Lowered(s[2..][i], t[i])
      {
        assert Lowered(s[i + 2], u[i + 2]);
      }
    }
    if Lowered(s[0], c) && Lowered(s[1], d) && LoweredPrefix(s[2..], t) {
      forall i | 2 <= i < |u|
        ensures Lowered(s[i], u[i])
      {
        assert Lowered(s[2..][i - 2], t[i - 2]);
      }
    }
  }

  lemma FirstByte(s: string, bytes: seq<Byte>)
    requires |s| >= 2 && Nibble(s[0]).Some? && Nibble(s[1]).Some? && bytes != []
    ensures FromHex(s) == bytes <==>
            bytes[0] == 16 * Nibble(s[0]).value + Nibble(s[1]).value && FromHex(s[2..]) == bytes[1..]
    ensures DenotesHex(s, bytes) <==>
            bytes[0] == 16 * Nibble(s[0]).value + Nibble(s[1]).value && DenotesHex(s[2..], bytes[1..])
  {
    Cons(16 * Nibble(s[0]).value + Nibble(s[1]).value, FromHex(s[2..]), bytes);
    FirstByteText(s, bytes[0], ToHex(bytes[1..]));
    Ends(s, ToHex(bytes), ToHex(bytes[1..]));
  }

  lemma Cons(b: Byte, rest: seq<Byte>, bytes: seq<Byte>)
    requires bytes != []
    ensures [b] + rest == bytes <==> b == bytes[0] && rest == bytes[1..]
  {
    assert bytes == [bytes[0]] + bytes[1..];
    assert ([b] + rest)[1..] == rest;
  }

  lemma Ends(s: string, u: string, t: string)
    requires |s| >= 2 && |u| == |t| + 2
    ensures NoPairAfter(s, u) <==> NoPairAfter(s[2..], t)
  {
    if |u| + 2 <= |s| {
      assert s[|u|] == s[2..][|t|] && s[|u| + 1] == s[2..][|t| + 1];
    }
  }

  lemma FirstByteText(s: string, b: Byte, t: string)
    requires |s| >= 2 && Nibble(s[0]).Some? && Nibble(s[1]).Some?
    ensures var u := [NibbleChar(b / 16), NibbleChar(b % 16)] + t;
            LoweredPrefix(s, u) <==>
            b == 16 * Nibble(s[0]).value + Nibble(s[1]).value && LoweredPrefix(s[2..], t)
  {
    NibbleDenotes(s[0], b / 16);
    NibbleDenotes(s[1], b % 16);
    LoweredSplit(s, NibbleChar(b / 16), NibbleChar(b % 16), t);
  }
}
